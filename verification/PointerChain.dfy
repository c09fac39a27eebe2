/**
 Circular lists of pointers in memory.  Memory is a sequence of cells indexed by address; a cell
 holds the address it points to.
 */
module PointerChain {

  /** p = *p */
  function Deref(m: seq<int>, p: int): int {
    if 0 <= p < |m| then m[p] else p
  }

  /** Where the benchmark loop p = *p is after k rounds. */
  function Chase(m: seq<int>, start: int, k: nat): int {
    if k == 0 then start else Deref(m, Chase(m, start, k - 1))
  }

  /** Chasing from start visits every cell of s exactly once and is then back at start. */
  ghost predicate SingleCycle(m: seq<int>, start: int, s: set<int>) {
    && s != {}
    && (forall a :: a in s ==> 0 <= a < |m|)
    && (forall k :: 0 <= k < |s| ==> Chase(m, start, k) in s)
    && (forall k, l :: 0 <= k < l < |s| ==> Chase(m, start, k) != Chase(m, start, l))
    && (forall a :: a in s ==> exists k :: 0 <= k < |s| && Chase(m, start, k) == a)
    && Chase(m, start, |s|) == start
  }

  /** Consecutive cells of path are linked. */
  ghost predicate Segment(m: seq<int>, path: seq<int>) {
    && (forall t :: 0 <= t < |path| ==> 0 <= path[t] < |m|)
    && (forall t :: 0 <= t < |path| - 1 ==> m[path[t]] == path[t + 1])
  }

  ghost predicate Distinct(path: seq<int>) {
    forall t, u :: 0 <= t < u < |path| ==> path[t] != path[u]
  }

  function Last(path: seq<int>): int
    requires path != []
  {
    path[|path| - 1]
  }

  function Elements(path: seq<int>): set<int> {
    set a | a in path
  }

  lemma {:induction false} DistinctSize(path: seq<int>)
    requires Distinct(path)
    ensures |Elements(path)| == |path|
  {
    if path == [] {
      assert Elements(path) == {};
    } else {
      var n := |path| - 1;
      DistinctSize(path[..n]);
      assert Elements(path) == Elements(path[..n]) + {path[n]};
    }
  }

  lemma {:induction false} ChaseFollows(m: seq<int>, path: seq<int>, k: nat)
    requires Segment(m, path) && k < |path|
    ensures Chase(m, path[0], k) == path[k]
  {
    if k > 0 {
      ChaseFollows(m, path, k - 1);
    }
  }

  /** A closed path without repetition is a single cycle over its cells. */
  lemma CycleFromPath(m: seq<int>, path: seq<int>)
    requires path != [] && Segment(m, path) && Distinct(path) && m[Last(path)] == path[0]
    ensures SingleCycle(m, path[0], Elements(path))
    ensures |Elements(path)| == |path|
  {
    DistinctSize(path);
    forall k | 0 <= k < |path| ensures Chase(m, path[0], k) == path[k] {
      ChaseFollows(m, path, k);
    }
    assert path[0] in Elements(path);
    forall a | a in Elements(path)
      ensures exists k :: 0 <= k < |path| && Chase(m, path[0], k) == a
    {
      var k :| 0 <= k < |path| && path[k] == a;
      assert Chase(m, path[0], k) == a;
    }
  }

  // ---------- paths made of pieces ----------

  function Concat(n: nat, f: nat -> seq<int>): seq<int> {
    if n == 0 then [] else Concat(n - 1, f) + f(n - 1)
  }

  /** The last cell of a points to the first cell of b. */
  ghost predicate Meets(m: seq<int>, a: seq<int>, b: seq<int>) {
    a != [] && b != [] && 0 <= Last(a) < |m| && m[Last(a)] == b[0]
  }

  lemma {:induction false} ConcatSegment(m: seq<int>, n: nat, f: nat -> seq<int>)
    requires n > 0
    requires forall i: nat :: i < n ==> f(i) != [] && Segment(m, f(i))
    requires forall i: nat :: i < n - 1 ==> Meets(m, f(i), f(i + 1))
    ensures Concat(n, f) != [] && Segment(m, Concat(n, f))
    ensures Concat(n, f)[0] == f(0)[0] && Last(Concat(n, f)) == Last(f(n - 1))
  {
    if n == 1 {
      assert Concat(1, f) == Concat(0, f) + f(0) == f(0);
    } else {
      ConcatSegment(m, n - 1, f);
      assert Meets(m, f(n - 2), f(n - 2 + 1));
      JoinSegments(m, Concat(n - 1, f), f(n - 1));
    }
  }

  lemma JoinSegments(m: seq<int>, a: seq<int>, b: seq<int>)
    requires Segment(m, a) && Segment(m, b) && Meets(m, a, b)
    ensures Segment(m, a + b) && (a + b)[0] == a[0] && Last(a + b) == Last(b)
  {
    forall t | 0 <= t < |a + b| - 1
      ensures m[(a + b)[t]] == (a + b)[t + 1]
    {
      if t < |a| - 1 {
        assert m[a[t]] == a[t + 1];
      } else if t >= |a| {
        assert m[b[t - |a|]] == b[t - |a| + 1];
      }
    }
  }

  lemma {:induction false} ConcatMember(n: nat, f: nat -> seq<int>, x: int)
    ensures x in Concat(n, f) <==> exists i: nat :: i < n && x in f(i)
  {
    if n > 0 {
      ConcatMember(n - 1, f, x);
    }
  }

  lemma {:induction false} ConcatDistinct(n: nat, f: nat -> seq<int>)
    requires forall i: nat :: i < n ==> Distinct(f(i))
    requires forall i: nat, j: nat, x :: i < j < n && x in f(i) ==> x !in f(j)
    ensures Distinct(Concat(n, f))
  {
    if n > 0 {
      ConcatDistinct(n - 1, f);
      var a, b := Concat(n - 1, f), f(n - 1);
      forall x | x in a ensures x !in b {
        ConcatMember(n - 1, f, x);
      }
      JoinDistinct(a, b);
    }
  }

  lemma JoinDistinct(a: seq<int>, b: seq<int>)
    requires Distinct(a) && Distinct(b) && forall x :: x in a ==> x !in b
    ensures Distinct(a + b)
  {
    forall t, u | 0 <= t < u < |a + b|
      ensures (a + b)[t] != (a + b)[u]
    {
      if t < |a| <= u {
        assert a[t] in a && b[u - |a|] in b;
      }
    }
  }

  lemma {:induction false} ConcatLength(n: nat, f: nat -> seq<int>, len: nat)
    requires forall i: nat :: i < n ==> |f(i)| == len
    ensures |Concat(n, f)| == n * len
  {
    if n > 0 {
      ConcatLength(n - 1, f, len);
    }
  }
}
