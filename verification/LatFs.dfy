/**
 The name tree of lat_fs.c: n files spread over directories of at most max entries each.  A
 directory or file is named by the sequence of numbers on its path below the temporary directory.
 */
module LatFs {
  import opened Arith

  type Path = seq<nat>

  /** An entry of names[] or dirs[]: NULL or an allocated string. */
  datatype Slot = Null | Name(path: Path)

  function Parent(p: Path): Path
    requires p != []
  {
    p[..|p| - 1]
  }

  // ---------- how many directories ----------

  function Ceil(m: nat, max: nat): nat
    requires max > 0
  {
    m / max + (if m % max != 0 then 1 else 0)
  }

  /** Files that fit below a directory with depth levels of directories under it. */
  function Capacity(depth: nat, max: nat): nat {
    if depth == 0 then max else Mul(Capacity(depth - 1, max), max)
  }

  /** Directories strictly below one that holds m files, by iterated ceilings as setup_names counts them. */
  function SubDirs(depth: nat, m: nat, max: nat): nat
    requires max > 0
  {
    if depth == 0 then 0 else Ceil(m, max) + SubDirs(depth - 1, Ceil(m, max), max)
  }

  /** Files in the next subdirectory when m files remain. */
  function Share(depth: nat, m: nat, max: nat): (r: nat)
    requires depth > 0
    ensures r <= m
  {
    if m <= Capacity(depth - 1, max) then m else Capacity(depth - 1, max)
  }

  lemma {:induction false} CapacityPositive(depth: nat, max: nat)
    requires max > 0
    ensures Capacity(depth, max) > 0
  {
    if depth > 0 {
      CapacityPositive(depth - 1, max);
      AtLeast(Capacity(depth - 1, max), max);
    }
  }

  lemma CeilShift(q: nat, r: nat, max: nat)
    requires max > 0
    ensures Ceil(Mul(q, max) + r, max) == q + Ceil(r, max)
  {
    hide Mul;
    DivParts(r, max);
    MulPlus(q, r / max, max);
    CeilOf(q + r / max, r % max, max);
    CeilOf(r / max, r % max, max);
  }

  lemma CeilOf(d: nat, m: nat, max: nat)
    requires m < max
    ensures Ceil(Mul(d, max) + m, max) == d + (if m != 0 then 1 else 0)
  {
    DivUnique(d * max + m, d, m, max);
  }

  lemma CeilBound(m: nat, q: nat, max: nat)
    requires max > 0
    ensures Ceil(m, max) <= q <==> m <= Mul(q, max)
    ensures Ceil(m, max) == 0 <==> m == 0
  {
    DivParts(m, max);
    var d, r := m / max, m % max;
    if d < q {
      MulLess(d, q, max);
    } else if d > q {
      MulLess(q, d, max);
    }
    if d > 0 {
      MulLess(0, d, max);
    }
  }

  lemma CeilExact(q: nat, max: nat)
    requires max > 0
    ensures Ceil(Mul(q, max), max) == q && Ceil(max, max) == 1 && Ceil(0, max) == 0
  {
    DivUnique(q * max, q, 0, max);
    DivUnique(max, 1, 0, max);
    DivUnique(0, 0, 0, max);
  }

  lemma {:induction false} NoFilesNoDirs(depth: nat, max: nat)
    requires max > 0
    ensures SubDirs(depth, 0, max) == 0
  {
    CeilExact(0, max);
    if depth > 0 {
      NoFilesNoDirs(depth - 1, max);
    }
  }

  /** One full subdirectory and the rest. */
  lemma {:induction false} FullChild(depth: nat, r: nat, max: nat)
    requires depth > 0 && max > 0
    ensures SubDirs(depth, Capacity(depth - 1, max) + r, max) ==
            1 + SubDirs(depth - 1, Capacity(depth - 1, max), max) + SubDirs(depth, r, max)
  {
    hide Ceil, Mul;
    if depth == 1 {
      MulSmall(max);
      CeilShift(1, r, max);
    } else {
      var c := Capacity(depth - 2, max);
      CeilShift(c, r, max);
      CeilExact(c, max);
      FullChild(depth - 1, Ceil(r, max), max);
    }
  }

  /** A single subdirectory suffices. */
  lemma {:induction false} OnlyChild(depth: nat, r: nat, max: nat)
    requires depth > 0 && max > 0 && 0 < r <= Capacity(depth - 1, max)
    ensures SubDirs(depth, r, max) == 1 + SubDirs(depth - 1, r, max)
  {
    hide Ceil, Mul;
    if depth == 1 {
      MulSmall(max);
      CeilBound(r, 1, max);
      CeilBound(r, 0, max);
    } else {
      CeilBound(r, Capacity(depth - 2, max), max);
      OnlyChild(depth - 1, Ceil(r, max), max);
    }
  }

  /** The precomputed count agrees with filling one subdirectory after the other. */
  lemma NextChild(depth: nat, m: nat, max: nat)
    requires depth > 0 && max > 0 && m > 0
    ensures Share(depth, m, max) > 0
    ensures SubDirs(depth, m, max) ==
            1 + SubDirs(depth - 1, Share(depth, m, max), max) + SubDirs(depth, m - Share(depth, m, max), max)
  {
    hide Ceil, Mul, SubDirs;
    CapacityPositive(depth - 1, max);
    NoFilesNoDirs(depth, max);
    if m <= Capacity(depth - 1, max) {
      OnlyChild(depth, m, max);
    } else {
      FullChild(depth, m - Capacity(depth - 1, max), max);
    }
  }

  // ---------- the tree ----------

  /** The directories below base, in the order they are made. */
  function Dirs(depth: nat, base: Path, m: nat, max: nat): seq<Path>
    requires max > 0
    decreases depth, m, 1
  {
    if depth == 0 then [] else DirsFrom(depth, base, m, max, 0)
  }

  function DirsFrom(depth: nat, base: Path, m: nat, max: nat, i: nat): seq<Path>
    requires depth > 0 && max > 0
    decreases depth, m, 0
  {
    if m == 0 then [] else
    CapacityPositive(depth - 1, max);
    var r := Share(depth, m, max);
    [base + [i]] + Dirs(depth - 1, base + [i], r, max) + DirsFrom(depth, base, m - r, max, i + 1)
  }

  /** base/0, base/1, and so on. */
  function Numbered(base: Path, m: nat): (s: seq<Path>)
    ensures |s| == m
  {
    seq(m, i requires 0 <= i => base + [i])
  }

  /** The files below base. */
  function Files(depth: nat, base: Path, m: nat, max: nat): seq<Path>
    requires max > 0
    decreases depth, m, 1
  {
    if depth == 0 then Numbered(base, m) else FilesFrom(depth, base, m, max, 0)
  }

  function FilesFrom(depth: nat, base: Path, m: nat, max: nat, i: nat): seq<Path>
    requires depth > 0 && max > 0
    decreases depth, m, 0
  {
    if m == 0 then [] else
    CapacityPositive(depth - 1, max);
    var r := Share(depth, m, max);
    Files(depth - 1, base + [i], r, max) + FilesFrom(depth, base, m - r, max, i + 1)
  }

  lemma {:induction false} DirsCount(depth: nat, base: Path, m: nat, max: nat)
    requires max > 0
    ensures |Dirs(depth, base, m, max)| == SubDirs(depth, m, max)
    decreases depth, m, 1
  {
    if depth > 0 {
      DirsFromCount(depth, base, m, max, 0);
    }
  }

  lemma {:induction false} DirsFromCount(depth: nat, base: Path, m: nat, max: nat, i: nat)
    requires depth > 0 && max > 0
    ensures |DirsFrom(depth, base, m, max, i)| == SubDirs(depth, m, max)
    decreases depth, m, 0
  {
    hide SubDirs;
    if m == 0 {
      NoFilesNoDirs(depth, max);
    } else {
      NextChild(depth, m, max);
      var r := Share(depth, m, max);
      DirsCount(depth - 1, base + [i], r, max);
      DirsFromCount(depth, base, m - r, max, i + 1);
    }
  }

  lemma {:induction false} FilesCount(depth: nat, base: Path, m: nat, max: nat)
    requires max > 0
    ensures |Files(depth, base, m, max)| == m
    decreases depth, m, 1
  {
    if depth > 0 {
      FilesFromCount(depth, base, m, max, 0);
    }
  }

  lemma {:induction false} FilesFromCount(depth: nat, base: Path, m: nat, max: nat, i: nat)
    requires depth > 0 && max > 0
    ensures |FilesFrom(depth, base, m, max, i)| == m
    decreases depth, m, 0
  {
    if m > 0 {
      CapacityPositive(depth - 1, max);
      var r := Share(depth, m, max);
      FilesCount(depth - 1, base + [i], r, max);
      FilesFromCount(depth, base, m - r, max, i + 1);
    }
  }

  /** p lies below base: it continues base with a component of at least i. */
  ghost predicate Below(p: Path, base: Path, i: nat) {
    |p| > |base| && p[..|base|] == base && p[|base|] >= i
  }

  ghost predicate DistinctPaths(s: seq<Path>) {
    forall t, u :: 0 <= t < u < |s| ==> s[t] != s[u]
  }

  /** All components that were added below base are less than max. */
  ghost predicate SmallBelow(p: Path, base: Path, max: nat) {
    |p| >= |base| && forall t :: |base| <= t < |p| ==> p[t] < max
  }

  lemma BelowChild(p: Path, base: Path, i: nat, j: nat)
    requires Below(p, base + [i], j)
    ensures Below(p, base, i) && p[|base|] == i
  {
    assert p[..|base|] == p[..|base + [i]|][..|base|] == base;
    assert p[|base|] == p[..|base + [i]|][|base|];
  }

  /** What holds of every path that a subtree of some depth contributes below base, from child i on. */
  ghost predicate Fits(p: Path, base: Path, i: nat, max: nat, deepest: nat) {
    Below(p, base, i) && SmallBelow(p, base, max) && |p| <= deepest
  }

  ghost predicate AllFit(s: seq<Path>, base: Path, i: nat, max: nat, deepest: nat) {
    forall t :: 0 <= t < |s| ==> Fits(s[t], base, i, max, deepest)
  }

  lemma FitLater(p: Path, base: Path, i: nat, max: nat, deepest: nat)
    requires Fits(p, base, i + 1, max, deepest)
    ensures Fits(p, base, i, max, deepest)
  {
  }

  lemma FitChild(p: Path, base: Path, i: nat, max: nat, deepest: nat)
    requires Fits(p, base + [i], 0, max, deepest) && i < max
    ensures Fits(p, base, i, max, deepest) && p[|base|] == i
  {
    BelowChild(p, base, i, 0);
    forall t | |base| <= t < |p| ensures p[t] < max {
      if t == |base| {
      } else {
        assert t >= |base + [i]|;
      }
    }
  }

  /** Everything in child i of base and in the later children fits below base from i on. */
  lemma JoinFit(a: seq<Path>, b: seq<Path>, base: Path, i: nat, max: nat, deepest: nat)
    requires AllFit(a, base + [i], 0, max, deepest) && AllFit(b, base, i + 1, max, deepest) && i < max
    ensures AllFit(a + b, base, i, max, deepest)
    ensures forall t :: 0 <= t < |a| ==> a[t][..|base|] == base && a[t][|base|] == i
  {
    forall t | 0 <= t < |a| ensures Fits(a[t], base, i, max, deepest) && a[t][|base|] == i {
      FitChild(a[t], base, i, max, deepest);
    }
    forall t | 0 <= t < |b| ensures Fits(b[t], base, i, max, deepest) {
      FitLater(b[t], base, i, max, deepest);
    }
  }

  /** What fits in the children from i on. */
  ghost predicate Room(depth: nat, m: nat, max: nat, i: nat)
    requires depth > 0
  {
    i <= max && m <= Mul(max - i, Capacity(depth - 1, max))
  }

  lemma RoomNext(depth: nat, m: nat, max: nat, i: nat)
    requires depth > 0 && m > 0 && Room(depth, m, max, i)
    ensures i < max && Room(depth, m - Share(depth, m, max), max, i + 1)
  {
    hide Capacity;
    var c := Capacity(depth - 1, max);
    MulSmall(c);
    assert i < max;
    MulPlus(max - i - 1, 1, c);
  }

  lemma RoomAtTop(depth: nat, m: nat, max: nat)
    requires depth > 0 && m <= Capacity(depth, max)
    ensures Room(depth, m, max, 0)
  {
    MulCommutes(Capacity(depth - 1, max), max);
  }

  lemma {:induction false} DirsFit(depth: nat, base: Path, m: nat, max: nat)
    requires max > 0 && m <= Capacity(depth, max)
    ensures AllFit(Dirs(depth, base, m, max), base, 0, max, |base| + depth)
    decreases depth, m, 1
  {
    if depth > 0 {
      RoomAtTop(depth, m, max);
      DirsFromFit(depth, base, m, max, 0);
    }
  }

  lemma {:induction false} DirsFromFit(depth: nat, base: Path, m: nat, max: nat, i: nat)
    requires depth > 0 && max > 0 && Room(depth, m, max, i)
    ensures AllFit(DirsFrom(depth, base, m, max, i), base, i, max, |base| + depth)
    decreases depth, m, 0
  {
    hide Room, Dirs;
    if m > 0 {
      CapacityPositive(depth - 1, max);
      RoomNext(depth, m, max, i);
      var r, child := Share(depth, m, max), base + [i];
      DirsFit(depth - 1, child, r, max);
      DirsFromFit(depth, base, m - r, max, i + 1);
      var a, b := Dirs(depth - 1, child, r, max), DirsFrom(depth, base, m - r, max, i + 1);
      JoinFit(a, b, base, i, max, |base| + depth);
      assert Fits(child, base, i, max, |base| + depth);
      assert DirsFrom(depth, base, m, max, i) == [child] + (a + b);
    }
  }

  lemma {:induction false} FilesFit(depth: nat, base: Path, m: nat, max: nat)
    requires max > 0 && m <= Capacity(depth, max)
    ensures AllFit(Files(depth, base, m, max), base, 0, max, |base| + depth + 1)
    ensures forall t :: 0 <= t < |Files(depth, base, m, max)| ==> |Files(depth, base, m, max)[t]| == |base| + depth + 1
    decreases depth, m, 1
  {
    if depth > 0 {
      RoomAtTop(depth, m, max);
      FilesFromFit(depth, base, m, max, 0);
    }
  }

  lemma {:induction false} FilesFromFit(depth: nat, base: Path, m: nat, max: nat, i: nat)
    requires depth > 0 && max > 0 && Room(depth, m, max, i)
    ensures AllFit(FilesFrom(depth, base, m, max, i), base, i, max, |base| + depth + 1)
    ensures forall t :: 0 <= t < |FilesFrom(depth, base, m, max, i)| ==> |FilesFrom(depth, base, m, max, i)[t]| == |base| + depth + 1
    decreases depth, m, 0
  {
    hide Room, Files;
    if m > 0 {
      CapacityPositive(depth - 1, max);
      RoomNext(depth, m, max, i);
      var r, child := Share(depth, m, max), base + [i];
      FilesFit(depth - 1, child, r, max);
      FilesFromFit(depth, base, m - r, max, i + 1);
      JoinFit(Files(depth - 1, child, r, max), FilesFrom(depth, base, m - r, max, i + 1), base, i, max, |base| + depth + 1);
    }
  }

  /** Lists from different children of the same directory have nothing in common. */
  lemma JoinDistinct(a: seq<Path>, b: seq<Path>, base: Path, i: nat, max: nat, deepest: nat)
    requires DistinctPaths(a) && DistinctPaths(b) && i < max
    requires AllFit(a, base + [i], 0, max, deepest) && AllFit(b, base, i + 1, max, deepest)
    ensures DistinctPaths(a + b)
  {
    JoinFit(a, b, base, i, max, deepest);
    forall t, u | 0 <= t < u < |a + b| ensures (a + b)[t] != (a + b)[u] {
      if t < |a| <= u {
        assert Fits(b[u - |a|], base, i + 1, max, deepest);
      }
    }
  }

  lemma HeadDistinct(x: Path, a: seq<Path>, b: seq<Path>, base: Path, i: nat, max: nat, deepest: nat)
    requires x == base + [i] && DistinctPaths(a + b) && i < max
    requires AllFit(a, x, 0, max, deepest) && AllFit(b, base, i + 1, max, deepest)
    ensures DistinctPaths([x] + (a + b))
  {
    forall t | 0 <= t < |a + b| ensures (a + b)[t] != x {
      if t < |a| {
        assert Fits(a[t], x, 0, max, deepest);
      } else {
        assert Fits(b[t - |a|], base, i + 1, max, deepest);
      }
    }
  }

  lemma {:induction false} DirsDistinct(depth: nat, base: Path, m: nat, max: nat)
    requires max > 0 && m <= Capacity(depth, max)
    ensures DistinctPaths(Dirs(depth, base, m, max))
    decreases depth, m, 1
  {
    if depth > 0 {
      RoomAtTop(depth, m, max);
      DirsFromDistinct(depth, base, m, max, 0);
    }
  }

  lemma {:induction false} DirsFromDistinct(depth: nat, base: Path, m: nat, max: nat, i: nat)
    requires depth > 0 && max > 0 && Room(depth, m, max, i)
    ensures DistinctPaths(DirsFrom(depth, base, m, max, i))
    decreases depth, m, 0
  {
    hide Room, Dirs;
    if m > 0 {
      CapacityPositive(depth - 1, max);
      RoomNext(depth, m, max, i);
      var r, child := Share(depth, m, max), base + [i];
      var a, b := Dirs(depth - 1, child, r, max), DirsFrom(depth, base, m - r, max, i + 1);
      DirsFit(depth - 1, child, r, max);
      DirsFromFit(depth, base, m - r, max, i + 1);
      DirsDistinct(depth - 1, child, r, max);
      DirsFromDistinct(depth, base, m - r, max, i + 1);
      JoinDistinct(a, b, base, i, max, |base| + depth);
      HeadDistinct(child, a, b, base, i, max, |base| + depth);
      assert DirsFrom(depth, base, m, max, i) == [child] + (a + b);
    }
  }

  lemma {:induction false} FilesDistinct(depth: nat, base: Path, m: nat, max: nat)
    requires max > 0 && m <= Capacity(depth, max)
    ensures DistinctPaths(Files(depth, base, m, max))
    decreases depth, m, 1
  {
    if depth > 0 {
      RoomAtTop(depth, m, max);
      FilesFromDistinct(depth, base, m, max, 0);
    } else {
      var f := Files(depth, base, m, max);
      forall t, u | 0 <= t < u < |f| ensures f[t] != f[u] {
        assert f[t][|base|] == t && f[u][|base|] == u;
      }
    }
  }

  lemma {:induction false} FilesFromDistinct(depth: nat, base: Path, m: nat, max: nat, i: nat)
    requires depth > 0 && max > 0 && Room(depth, m, max, i)
    ensures DistinctPaths(FilesFrom(depth, base, m, max, i))
    decreases depth, m, 0
  {
    hide Room, Files;
    if m > 0 {
      CapacityPositive(depth - 1, max);
      RoomNext(depth, m, max, i);
      var r, child := Share(depth, m, max), base + [i];
      FilesFit(depth - 1, child, r, max);
      FilesFromFit(depth, base, m - r, max, i + 1);
      FilesDistinct(depth - 1, child, r, max);
      FilesFromDistinct(depth, base, m - r, max, i + 1);
      JoinDistinct(Files(depth - 1, child, r, max), FilesFrom(depth, base, m - r, max, i + 1), base, i, max, |base| + depth + 1);
    }
  }

  // ---------- parents come first ----------

  /** The parent of p is base or one of the first upto paths of s. */
  ghost predicate ParentIn(p: Path, base: Path, s: seq<Path>, upto: nat)
    requires upto <= |s|
  {
    p != [] && (Parent(p) == base || exists u :: 0 <= u < upto && s[u] == Parent(p))
  }

  ghost predicate ParentsFirst(s: seq<Path>, base: Path) {
    forall t :: 0 <= t < |s| ==> ParentIn(s[t], base, s, t)
  }

  lemma ParentShifted(p: Path, base: Path, s: seq<Path>, upto: nat, whole: seq<Path>, off: nat)
    requires upto <= |s| && off + |s| <= |whole| && whole[off..off + |s|] == s && ParentIn(p, base, s, upto)
    ensures ParentIn(p, base, whole, off + upto)
  {
    if Parent(p) != base {
      var u :| 0 <= u < upto && s[u] == Parent(p);
      assert whole[off + u] == s[u];
    }
  }

  lemma JoinParents(x: Path, a: seq<Path>, b: seq<Path>, base: Path)
    requires x != [] && Parent(x) == base && ParentsFirst(a, x) && ParentsFirst(b, base)
    ensures ParentsFirst([x] + a + b, base)
  {
    hide ParentIn, Parent;
    var s := [x] + a + b;
    assert s[1..1 + |a|] == a && s[1 + |a|..1 + |a| + |b|] == b;
    assert ParentIn(x, base, s, 0) by { HeadParent(x, base, s); }
    forall t | 0 <= t < |s| ensures ParentIn(s[t], base, s, t) {
      if 1 <= t < 1 + |a| {
        ParentShifted(a[t - 1], x, a, t - 1, s, 1);
        UnderHead(a[t - 1], x, base, s, t);
      } else if t >= 1 + |a| {
        ParentShifted(b[t - 1 - |a|], base, b, t - 1 - |a|, s, 1 + |a|);
      }
    }
  }

  lemma HeadParent(x: Path, base: Path, s: seq<Path>)
    requires x != [] && Parent(x) == base
    ensures ParentIn(x, base, s, 0)
  {
  }

  lemma UnderHead(p: Path, x: Path, base: Path, s: seq<Path>, upto: nat)
    requires 1 <= upto <= |s| && s[0] == x && ParentIn(p, x, s, upto)
    ensures ParentIn(p, base, s, upto)
  {
  }

  lemma {:induction false} DirsParents(depth: nat, base: Path, m: nat, max: nat)
    requires max > 0
    ensures ParentsFirst(Dirs(depth, base, m, max), base)
    decreases depth, m, 1
  {
    if depth > 0 {
      DirsFromParents(depth, base, m, max, 0);
    }
  }

  lemma {:induction false} DirsFromParents(depth: nat, base: Path, m: nat, max: nat, i: nat)
    requires depth > 0 && max > 0
    ensures ParentsFirst(DirsFrom(depth, base, m, max, i), base)
    decreases depth, m, 0
  {
    hide Dirs;
    if m > 0 {
      CapacityPositive(depth - 1, max);
      var r, child := Share(depth, m, max), base + [i];
      DirsParents(depth - 1, child, r, max);
      DirsFromParents(depth, base, m - r, max, i + 1);
      assert Parent(child) == base;
      JoinParents(child, Dirs(depth - 1, child, r, max), DirsFrom(depth, base, m - r, max, i + 1), base);
    }
  }

  /** Every file lies in base or in one of the directories below it. */
  ghost predicate Housed(files: seq<Path>, dirs: seq<Path>, base: Path) {
    forall t :: 0 <= t < |files| ==> files[t] != [] && (Parent(files[t]) == base || Parent(files[t]) in dirs)
  }

  lemma {:induction false} FilesHoused(depth: nat, base: Path, m: nat, max: nat)
    requires max > 0
    ensures Housed(Files(depth, base, m, max), Dirs(depth, base, m, max), base)
    decreases depth, m, 1
  {
    if depth > 0 {
      FilesFromHoused(depth, base, m, max, 0);
    } else {
      forall t | 0 <= t < m ensures Parent(base + [t]) == base {
      }
    }
  }

  lemma {:induction false} FilesFromHoused(depth: nat, base: Path, m: nat, max: nat, i: nat)
    requires depth > 0 && max > 0
    ensures Housed(FilesFrom(depth, base, m, max, i), DirsFrom(depth, base, m, max, i), base)
    decreases depth, m, 0
  {
    hide Dirs, Files;
    if m > 0 {
      CapacityPositive(depth - 1, max);
      var r, child := Share(depth, m, max), base + [i];
      FilesHoused(depth - 1, child, r, max);
      FilesFromHoused(depth, base, m - r, max, i + 1);
    }
  }

  // ---------- at most max entries in a directory ----------

  /** The entries of directory d among the given paths. */
  function Entries(d: Path, paths: seq<Path>): set<Path> {
    set p | p in paths && p != [] && Parent(p) == d
  }

  lemma {:induction false} NumberedCount(d: Path, max: nat)
    ensures |set i: nat | i < max :: d + [i]| == max
  {
    if max == 0 {
      assert (set i: nat | i < max :: d + [i]) == {};
    } else {
      NumberedCount(d, max - 1);
      var before := set i: nat | i < max - 1 :: d + [i];
      forall i: nat | i < max - 1 ensures d + [i] != d + [max - 1] {
        assert (d + [i])[|d|] != (d + [max - 1])[|d|];
      }
      assert (set i: nat | i < max :: d + [i]) == before + {d + [max - 1]};
    }
  }

  lemma FewEntries(d: Path, paths: seq<Path>, base: Path, max: nat, deepest: nat)
    requires AllFit(paths, base, 0, max, deepest)
    ensures |Entries(d, paths)| <= max
  {
    var numbered := set i: nat | i < max :: d + [i];
    forall p | p in Entries(d, paths) ensures p in numbered {
      var t :| 0 <= t < |paths| && paths[t] == p;
      assert Fits(p, base, 0, max, deepest);
      var i := p[|p| - 1];
      assert p == d + [i] && i < max;
    }
    NumberedCount(d, max);
    assert numbered == Entries(d, paths) + (numbered - Entries(d, paths));
  }

  // ---------- setup_names and cleanup_names ----------

  class NameState {
    var n: nat
    var max: nat
    var ndirs: nat
    var names: array<Slot>
    var dirs: array<Slot>
    var fs: set<Path>       // directories that exist
    var failures: nat       // mkdir and rmdir calls that failed

    constructor (max: nat)
      ensures this.max == max && n == 0 && ndirs == 0 && fs == {} && failures == 0
    {
      this.max := max;
      n, ndirs, fs, failures := 0, 0, {}, 0;
      names := new Slot[0];
      dirs := new Slot[0];
    }

    /** mkdir succeeds when the parent exists and the directory does not. */
    method Mkdir(p: Path)
      modifies this`fs, this`failures
      ensures if p !in old(fs) && (p == [] || Parent(p) in old(fs)) then fs == old(fs) + {p} && failures == old(failures)
              else fs == old(fs) && failures == old(failures) + 1
    {
      if p !in fs && (p == [] || Parent(p) in fs) {
        fs := fs + {p};
      } else {
        failures := failures + 1;
      }
    }

    /** rmdir succeeds when the directory exists and holds no other. */
    method Rmdir(p: Path)
      modifies this`fs, this`failures
      ensures if p in old(fs) && (forall q :: q in old(fs) && q != [] ==> Parent(q) != p) then fs == old(fs) - {p} && failures == old(failures)
              else fs == old(fs) && failures == old(failures) + 1
    {
      if p in fs && (forall q :: q in fs && q != [] ==> Parent(q) != p) {
        fs := fs - {p};
      } else {
        failures := failures + 1;
      }
    }
  }

  function Slots(s: seq<Path>): (t: seq<Slot>)
    ensures |t| == |s|
  {
    seq(|s|, i requires 0 <= i < |s| => Name(s[i]))
  }

  function ToSet(s: seq<Path>): set<Path> {
    set p | p in s
  }

  /** count = max^depth, as the recursion computes it. */
  method CountFiles(depth: nat, max: nat) returns (count: nat)
    requires depth > 0
    ensures count == Capacity(depth - 1, max)
  {
    count := max;
    var i := 1;
    while i < depth
      invariant 1 <= i <= depth && count == Capacity(i - 1, max)
    {
      count := Mul(count, max);
      i := i + 1;
    }
  }

  /** With a fan-out of one the ceilings stay as they are, so the loop over them ends only when it is not entered. */
  predicate Terminates(n: nat, max: nat) {
    max >= 2 || (max == 1 && n <= 1)
  }

  /** The iterated ceilings come down to a single top directory exactly then. */
  lemma TerminatesExactly(n: nat, max: nat)
    requires n >= 1 && max >= 1
    ensures Terminates(n, max) <==> exists depth: nat :: Level(depth, n, max) <= 1
  {
    if Terminates(n, max) {
      TopLevel(n, max);
      if max >= 2 {
        var depth := LevelEnds(0, n, max);
      } else {
        LevelOne(0, n);
      }
    } else {
      forall depth: nat ensures Level(depth, n, max) > 1 {
        LevelOne(depth, n);
      }
    }
  }

  lemma {:induction false} LevelEnds(depth: nat, n: nat, max: nat) returns (end: nat)
    requires max >= 2
    ensures Level(end, n, max) <= 1
    decreases Level(depth, n, max)
  {
    end := depth;
    if Level(depth, n, max) > 1 {
      LevelDown(depth, n, max, Level(depth, n, max));
      end := LevelEnds(depth + 1, n, max);
    }
  }

  /** With a fan-out of one the ceilings stay as they are. */
  lemma {:induction false} LevelOne(depth: nat, n: nat)
    ensures Level(depth, n, 1) == n
  {
    assert Ceil(n, 1) == n;
    if depth > 0 {
      LevelOne(depth - 1, n);
    }
  }

  /** The directory count of setup_names, with the depth of the tree. */
  method CountDirs(n: nat, max: nat) returns (ndirs: nat, depth: nat)
    requires n >= 1 && Terminates(n, max)
    ensures ndirs == SubDirs(depth, n, max) + 1 && n <= Capacity(depth, max)
    ensures depth > 0 ==> n > Capacity(depth - 1, max)
  {
    hide Mul, Capacity;
    depth := 0;
    ndirs := n / max;
    if n % max != 0 {
      ndirs := ndirs + 1;
    }
    var d := ndirs;
    MulSmall(max);
    TopLevel(n, max);
    while d > 1
      invariant d == Level(depth, n, max) >= 1
      invariant ndirs == SubDirs(depth, n, max) + d && (depth > 0 ==> n > Capacity(depth - 1, max))
      decreases d
    {
      LevelDown(depth, n, max, d);
      LevelBeyond(depth, n, max);
      d := d / max + (if d % max != 0 then 1 else 0);
      ndirs := ndirs + d;
      depth := depth + 1;
    }
    LevelCapacity(depth, n, max);
  }

  /** Directories needed depth levels above the files: ceilings iterated depth+1 times. */
  function Level(depth: nat, m: nat, max: nat): nat
    requires max > 0
  {
    if depth == 0 then Ceil(m, max) else Level(depth - 1, Ceil(m, max), max)
  }

  lemma TopLevel(n: nat, max: nat)
    requires n >= 1 && max > 0
    ensures Level(0, n, max) >= 1
  {
    CeilBound(n, 0, max);
  }

  lemma {:induction false} LevelNext(depth: nat, m: nat, max: nat)
    requires max > 0
    ensures Level(depth + 1, m, max) == Ceil(Level(depth, m, max), max)
    ensures SubDirs(depth + 1, m, max) == SubDirs(depth, m, max) + Level(depth, m, max)
  {
    if depth > 0 {
      LevelNext(depth - 1, Ceil(m, max), max);
    }
  }

  lemma LevelDown(depth: nat, m: nat, max: nat, d: nat)
    requires max >= 2 && d == Level(depth, m, max) && d > 1
    ensures Level(depth + 1, m, max) == Ceil(d, max) && 1 <= Ceil(d, max) < d
    ensures SubDirs(depth + 1, m, max) == SubDirs(depth, m, max) + d
  {
    LevelNext(depth, m, max);
    CeilBound(d, 0, max);
    CeilBound(d, d - 1, max);
    MulMono2(d - 1, max);
  }

  lemma MulMono2(q: nat, max: nat)
    requires q >= 1 && max >= 2
    ensures q + 1 <= Mul(q, max)
  {
    AtLeast(q, max);
    AtLeast(q, max - 2);
    assert q * max == q * 2 + q * (max - 2);
  }

  /** As many files as one top directory needs fit below it. */
  lemma {:induction false} LevelCapacity(depth: nat, m: nat, max: nat)
    requires max > 0 && Level(depth, m, max) <= 1
    ensures m <= Capacity(depth, max)
  {
    MulSmall(max);
    if depth == 0 {
      CeilBound(m, 1, max);
    } else {
      LevelCapacity(depth - 1, Ceil(m, max), max);
      CeilBound(m, Capacity(depth - 1, max), max);
    }
  }

  /** More than one top directory means more files than fit below one. */
  lemma {:induction false} LevelBeyond(depth: nat, m: nat, max: nat)
    requires max > 0 && Level(depth, m, max) > 1
    ensures m > Capacity(depth, max)
  {
    MulSmall(max);
    if depth == 0 {
      CeilBound(m, 1, max);
    } else {
      LevelBeyond(depth - 1, Ceil(m, max), max);
      CeilBound(m, Capacity(depth - 1, max), max);
    }
  }

  lemma SlotsJoin(a: seq<Path>, b: seq<Path>)
    ensures Slots(a + b) == Slots(a) + Slots(b)
  {
  }

  /** How many files a directory of this depth takes when left remain. */
  function Take(depth: nat, left: nat, max: nat): (m: nat)
    ensures m <= left && m <= Capacity(depth, max)
  {
    if left <= Capacity(depth, max) then left else Capacity(depth, max)
  }

  /** No directory below base, from child i on, exists yet. */
  ghost predicate Clear(fs: set<Path>, base: Path, i: nat) {
    forall p :: p in fs ==> !Below(p, base, i)
  }

  lemma ClearChild(fs: set<Path>, base: Path, i: nat)
    requires Clear(fs, base, i)
    ensures base + [i] !in fs && Clear(fs + {base + [i]}, base + [i], 0)
  {
    assert Below(base + [i], base, i);
    forall p | p in fs + {base + [i]} ensures !Below(p, base + [i], 0) {
      if Below(p, base + [i], 0) {
        BelowChild(p, base, i, 0);
      }
    }
  }

  lemma ClearNext(fs: set<Path>, dirs: seq<Path>, base: Path, i: nat, max: nat, deepest: nat)
    requires Clear(fs, base, i) && AllFit(dirs, base + [i], 0, max, deepest)
    ensures Clear(fs + {base + [i]} + ToSet(dirs), base, i + 1)
  {
    forall p | p in fs + {base + [i]} + ToSet(dirs) ensures !Below(p, base, i + 1) {
      if p in fs {
        assert !Below(p, base, i);
      } else if p in ToSet(dirs) {
        var t :| 0 <= t < |dirs| && dirs[t] == p;
        assert Fits(p, base + [i], 0, max, deepest);
        BelowChild(p, base, i, 0);
      }
    }
  }

  /** Filled: the slots from lo to hi hold these paths and the rest is as before. */
  ghost predicate Filled(a: seq<Slot>, a0: seq<Slot>, lo: nat, hi: nat, paths: seq<Path>) {
    && |a| == |a0| && lo <= hi <= |a|
    && a[..lo] == a0[..lo] && a[lo..hi] == Slots(paths) && a[hi..] == a0[hi..]
  }

  lemma FilledMore(a0: seq<Slot>, a1: seq<Slot>, a2: seq<Slot>, lo: nat, mid: nat, hi: nat, p: seq<Path>, q: seq<Path>)
    requires Filled(a1, a0, lo, mid, p) && Filled(a2, a1, mid, hi, q)
    ensures Filled(a2, a0, lo, hi, p + q)
  {
    SlotsJoin(p, q);
    assert a2[lo..hi] == a2[lo..mid] + a2[mid..hi];
    assert a2[lo..mid] == a2[..mid][lo..] == a1[..mid][lo..] == a1[lo..mid];
    assert a2[..lo] == a2[..mid][..lo] == a1[..mid][..lo] == a1[..lo];
    assert a2[hi..] == a1[hi..] == a1[mid..][hi - mid..] == a0[mid..][hi - mid..] == a0[hi..];
  }

  lemma FilledOne(a: seq<Slot>, i: nat, p: Path)
    requires i < |a|
    ensures Filled(a[i := Name(p)], a, i, i + 1, [p])
  {
  }

  lemma FilledNone(a: seq<Slot>, i: nat)
    requires i <= |a|
    ensures Filled(a, a, i, i, [])
  {
  }

  lemma NumberedMore(base: Path, i: nat)
    ensures Numbered(base, i) + [base + [i]] == Numbered(base, i + 1)
  {
  }

  /** The files of a directory of depth 0. */
  method FillLeaf(state: NameState, base: Path, foff0: nat) returns (foff: nat)
    requires foff0 <= state.n == state.names.Length && state.max > 0
    modifies state.names
    ensures foff == foff0 + Take(0, state.n - foff0, state.max)
    ensures Filled(state.names[..], old(state.names[..]), foff0, foff, Numbered(base, foff - foff0))
  {
    hide Filled, Numbered;
    foff := foff0;
    FilledNone(state.names[..], foff0);
    assert Numbered(base, 0) == [];
    var i := 0;
    while i < state.max && foff < state.n
      invariant i <= state.max && foff0 <= foff <= state.n && foff == foff0 + i
      invariant Filled(state.names[..], old(state.names[..]), foff0, foff, Numbered(base, i))
    {
      ghost var before := state.names[..];
      FilledOne(before, foff, base + [i]);
      state.names[foff] := Name(base + [i]);
      FilledMore(old(state.names[..]), before, state.names[..], foff0, foff, foff + 1, Numbered(base, i), [base + [i]]);
      NumberedMore(base, i);
      foff := foff + 1;
      i := i + 1;
    }
  }

  lemma FilesUnfold(depth: nat, base: Path, m: nat, max: nat, i: nat)
    requires depth > 0 && max > 0 && m > 0
    ensures var r := Share(depth, m, max);
            r > 0 && FilesFrom(depth, base, m, max, i) == Files(depth - 1, base + [i], r, max) + FilesFrom(depth, base, m - r, max, i + 1)
  {
    CapacityPositive(depth - 1, max);
  }

  lemma DirsUnfold(depth: nat, base: Path, m: nat, max: nat, i: nat)
    requires depth > 0 && max > 0 && m > 0
    ensures var r := Share(depth, m, max);
            r > 0 && DirsFrom(depth, base, m, max, i) ==
                     ([base + [i]] + Dirs(depth - 1, base + [i], r, max)) + DirsFrom(depth, base, m - r, max, i + 1)
  {
    CapacityPositive(depth - 1, max);
  }

  /** The bound ndirs = left/count + 1 of the loop never stops it early. */
  lemma EnoughDirs(left: nat, count: nat, i: nat)
    requires count > 0 && Mul(i, count) < left
    ensures i < left / count + 1
  {
    DivParts(left, count);
    if left / count + 1 <= i {
      MulMono(left / count + 1, i, count);
      MulPlus(left / count, 1, count);
      MulSmall(count);
    }
  }

  ghost predicate Ready(state: NameState)
    reads state
  {
    && state.max > 0 && state.names.Length == state.n && state.dirs.Length == state.ndirs
    && state.names != state.dirs
  }

  /** Where the loop over the children stands: left files of its m are still to come from child i on. */
  ghost predicate Pending(depth: nat, max: nat, m: nat, left: nat, todo: nat, i: nat)
    requires depth > 0
  {
    var count := Capacity(depth - 1, max);
    && i <= max && left <= m
    && (left == todo || (left == Mul(max - i, count) && left <= todo))
    && (left == 0 || m - left == Mul(i, count))
  }

  lemma PendingStart(depth: nat, max: nat, m: nat, todo: nat)
    requires depth > 0 && m == Take(depth, todo, max)
    ensures Pending(depth, max, m, m, todo, 0)
  {
    MulCommutes(Capacity(depth - 1, max), max);
    MulSmall(Capacity(depth - 1, max));
  }

  /** The child takes exactly its share, and the loop is where it should be afterwards. */
  lemma PendingNext(depth: nat, max: nat, m: nat, left: nat, todo: nat, i: nat)
    requires depth > 0 && max > 0 && Pending(depth, max, m, left, todo, i) && i < max && todo > 0
    ensures left > 0 && Take(depth - 1, todo, max) == Share(depth, left, max)
    ensures var r := Share(depth, left, max); Pending(depth, max, m, left - r, todo - r, i + 1)
  {
    hide Capacity;
    var count := Capacity(depth - 1, max);
    CapacityPositive(depth - 1, max);
    MulPlus(max - i - 1, 1, count);
    MulPlus(i, 1, count);
    MulSmall(count);
  }

  lemma PendingDone(depth: nat, max: nat, m: nat, left: nat, todo: nat, i: nat)
    requires depth > 0 && max > 0 && Pending(depth, max, m, left, todo, i)
    requires m <= Capacity(depth, max) && Capacity(depth - 1, max) > 0
    requires i == max || todo == 0 || i >= (todo + m - left) / Capacity(depth - 1, max) + 1
    ensures left == 0
  {
    var count := Capacity(depth - 1, max);
    MulSmall(count);
    MulCommutes(count, max);
    hide Capacity, Mul;
    if left > 0 && i < max && todo > 0 {
      EnoughDirs(todo + m - left, count, i);
    }
  }

  /** The two counters, the two arrays and the file system. */
  datatype Snap = Snap(foff: nat, doff: nat, names: seq<Slot>, dirs: seq<Slot>, fs: set<Path>, failures: nat)

  ghost function Now(state: NameState, foff: nat, doff: nat): Snap
    reads state, state.names, state.dirs
  {
    Snap(foff, doff, state.names[..], state.dirs[..], state.fs, state.failures)
  }

  /** Between the snapshots exactly these files were named and these directories named and made. */
  ghost predicate Added(s: Snap, t: Snap, files: seq<Path>, dirs: seq<Path>) {
    && t.foff == s.foff + |files| && t.doff == s.doff + |dirs|
    && Filled(t.names, s.names, s.foff, t.foff, files)
    && Filled(t.dirs, s.dirs, s.doff + 1, t.doff + 1, dirs)
    && t.fs == s.fs + ToSet(dirs) && t.failures == s.failures
  }

  lemma AddedMore(s: Snap, t: Snap, u: Snap, f: seq<Path>, d: seq<Path>, f': seq<Path>, d': seq<Path>)
    requires Added(s, t, f, d) && Added(t, u, f', d')
    ensures Added(s, u, f + f', d + d')
  {
    FilledMore(s.names, t.names, u.names, s.foff, t.foff, u.foff, f, f');
    FilledMore(s.dirs, t.dirs, u.dirs, s.doff + 1, t.doff + 1, u.doff + 1, d, d');
    JoinSets(d, d');
  }

  lemma AddedNone(s: Snap)
    requires s.foff <= |s.names| && s.doff < |s.dirs|
    ensures Added(s, s, [], [])
  {
  }

  lemma TakeFits(depth: nat, left: nat, max: nat)
    ensures Take(depth, left, max) <= Capacity(depth, max)
  {
  }

  lemma JoinSets(a: seq<Path>, b: seq<Path>)
    ensures ToSet(a + b) == ToSet(a) + ToSet(b)
  {
  }

  /** mkdir and the new entry of dirs[]. */
  method MakeDir(state: NameState, foff: nat, doff: nat, base: Path, i: nat)
    requires Ready(state) && foff <= state.n && doff + 1 < state.ndirs && base in state.fs && base + [i] !in state.fs
    modifies state`fs, state`failures, state.dirs
    ensures Added(old(Now(state, foff, doff)), Now(state, foff, doff + 1), [], [base + [i]])
    ensures state.dirs[doff + 1] == Name(base + [i])
  {
    assert Parent(base + [i]) == base;
    state.dirs[doff + 1] := Name(base + [i]);
    state.Mkdir(base + [i]);
  }

  /** One call of mkdir and one recursive call, for child i. */
  method FillChild(state: NameState, base: Path, foff0: nat, doff0: nat, depth: nat, i: nat, ghost r: nat)
    returns (foff: nat, doff: nat)
    requires Ready(state) && depth > 0 && foff0 < state.n && base in state.fs && Clear(state.fs, base, i)
    requires r == Take(depth - 1, state.n - foff0, state.max)
    requires doff0 + 1 + SubDirs(depth - 1, r, state.max) < state.ndirs && i < state.max
    modifies state`fs, state`failures, state.names, state.dirs
    ensures Added(old(Now(state, foff0, doff0)), Now(state, foff, doff),
                  Files(depth - 1, base + [i], r, state.max), [base + [i]] + Dirs(depth - 1, base + [i], r, state.max))
    ensures Clear(state.fs, base, i + 1) && base in state.fs
    decreases depth, 0
  {
    hide Filled, Clear, Dirs, Files, SubDirs, Take, Added;
    var child := base + [i];
    ghost var s0 := Now(state, foff0, doff0);
    ClearChild(state.fs, base, i);
    MakeDir(state, foff0, doff0, base, i);
    ghost var s1 := Now(state, foff0, doff0 + 1);
    MadeFs(s0, s1, child);
    foff, doff := SetupNamesRecurse(state, foff0, doff0 + 1, depth - 1);
    ghost var s2 := Now(state, foff, doff);
    ghost var f, d := Files(depth - 1, child, r, state.max), Dirs(depth - 1, child, r, state.max);
    AddedMore(s0, s1, s2, [], [child], f, d);
    assert [] + f == f;
    TakeFits(depth - 1, state.n - foff0, state.max);
    DirsFit(depth - 1, child, r, state.max);
    ClearNext(s0.fs, d, base, i, state.max, |child| + depth - 1);
    SubtreeFs(s1, s2, f, d);
  }

  lemma MadeFs(s: Snap, t: Snap, child: Path)
    requires Added(s, t, [], [child])
    ensures t.fs == s.fs + {child} && t.failures == s.failures && |t.names| == |s.names| && |t.dirs| == |s.dirs|
  {
  }

  lemma SubtreeFs(s: Snap, t: Snap, f: seq<Path>, d: seq<Path>)
    requires Added(s, t, f, d)
    ensures t.fs == s.fs + ToSet(d)
  {
  }

  /**
   setup_names_recurse: takes as many files as are left and fit, and makes exactly the directories
   counted beforehand; no store is out of bounds and every mkdir succeeds.
   */
  method SetupNamesRecurse(state: NameState, foff0: nat, doff0: nat, depth: nat) returns (foff: nat, doff: nat)
    requires Ready(state) && foff0 <= state.n && doff0 < state.ndirs && state.dirs[doff0].Name?
    requires state.dirs[doff0].path in state.fs && Clear(state.fs, state.dirs[doff0].path, 0)
    requires doff0 + SubDirs(depth, Take(depth, state.n - foff0, state.max), state.max) < state.ndirs
    modifies state`fs, state`failures, state.names, state.dirs
    ensures var base, m := old(state.dirs[doff0].path), Take(depth, state.n - foff0, state.max);
            Added(old(Now(state, foff0, doff0)), Now(state, foff, doff), Files(depth, base, m, state.max), Dirs(depth, base, m, state.max))
    decreases depth, 2
  {
    hide Clear, Take;
    var base := state.dirs[doff0].path;
    foff, doff := foff0, doff0;
    if depth == 0 {
      foff := FillLeaf(state, base, foff0);
      return;
    }
    foff, doff := FillChildren(state, base, foff0, doff0, depth);
  }

  /** Where the loop over the children stands: what is done, and what the children from i on will add. */
  ghost predicate Going(s0: Snap, s: Snap, depth: nat, base: Path, max: nat, n: nat, m: nat, left: nat, i: nat,
                        files: seq<Path>, dirs: seq<Path>)
    requires depth > 0 && max > 0
  {
    && Added(s0, s, files, dirs) && s.foff <= n
    && Pending(depth, max, m, left, n - s.foff, i)
    && FilesFrom(depth, base, m, max, 0) == files + FilesFrom(depth, base, left, max, i)
    && DirsFrom(depth, base, m, max, 0) == dirs + DirsFrom(depth, base, left, max, i)
    && s.foff + left == s0.foff + m
    && s.doff + SubDirs(depth, left, max) == s0.doff + SubDirs(depth, m, max)
  }

  lemma GoingNext(s0: Snap, s: Snap, t: Snap, depth: nat, base: Path, max: nat, n: nat, m: nat, left: nat, i: nat,
                  files: seq<Path>, dirs: seq<Path>)
    requires depth > 0 && max > 0 && Going(s0, s, depth, base, max, n, m, left, i, files, dirs) && i < max && s.foff < n
    requires var r := Share(depth, left, max);
             Added(s, t, Files(depth - 1, base + [i], r, max), [base + [i]] + Dirs(depth - 1, base + [i], r, max))
    ensures var r := Share(depth, left, max);
            Going(s0, t, depth, base, max, n, m, left - r, i + 1, files + Files(depth - 1, base + [i], r, max),
                  dirs + ([base + [i]] + Dirs(depth - 1, base + [i], r, max)))
  {
    hide Added, Pending, SubDirs, Files, Dirs, FilesFrom, DirsFrom, Share;
    PendingNext(depth, max, m, left, n - s.foff, i);
    var r, child := Share(depth, left, max), base + [i];
    var f, d := Files(depth - 1, child, r, max), Dirs(depth - 1, child, r, max);
    NextChild(depth, left, max);
    FilesUnfold(depth, base, left, max, i);
    DirsUnfold(depth, base, left, max, i);
    FilesCount(depth - 1, child, r, max);
    DirsCount(depth - 1, child, r, max);
    AddedCounts(s, t, f, [child] + d);
    AddedMore(s0, s, t, files, dirs, f, [child] + d);
    assert files + (f + FilesFrom(depth, base, left - r, max, i + 1)) == files + f + FilesFrom(depth, base, left - r, max, i + 1);
    assert dirs + (([child] + d) + DirsFrom(depth, base, left - r, max, i + 1)) == dirs + ([child] + d) + DirsFrom(depth, base, left - r, max, i + 1);
  }

  lemma AddedCounts(s: Snap, t: Snap, f: seq<Path>, d: seq<Path>)
    requires Added(s, t, f, d)
    ensures t.foff == s.foff + |f| && t.doff == s.doff + |d|
  {
  }

  /** What the next child needs. */
  lemma GoingRoom(s0: Snap, s: Snap, depth: nat, base: Path, max: nat, n: nat, m: nat, left: nat, i: nat,
                  files: seq<Path>, dirs: seq<Path>)
    requires depth > 0 && max > 0 && Going(s0, s, depth, base, max, n, m, left, i, files, dirs) && i < max && s.foff < n
    ensures Share(depth, left, max) == Take(depth - 1, n - s.foff, max)
    ensures s.doff + 1 + SubDirs(depth - 1, Share(depth, left, max), max) <= s0.doff + SubDirs(depth, m, max)
  {
    hide Added, SubDirs, Files, Dirs, FilesFrom, DirsFrom, Share, Pending, Take;
    PendingNext(depth, max, m, left, n - s.foff, i);
    NextChild(depth, left, max);
  }

  lemma GoingStart(s0: Snap, depth: nat, base: Path, max: nat, n: nat, m: nat)
    requires depth > 0 && max > 0 && s0.foff <= n <= |s0.names| && s0.doff < |s0.dirs| && m == Take(depth, n - s0.foff, max)
    ensures Going(s0, s0, depth, base, max, n, m, m, 0, [], [])
  {
    AddedNone(s0);
    PendingStart(depth, max, m, n - s0.foff);
    assert [] + FilesFrom(depth, base, m, max, 0) == FilesFrom(depth, base, m, max, 0);
    assert [] + DirsFrom(depth, base, m, max, 0) == DirsFrom(depth, base, m, max, 0);
  }

  lemma GoingEnd(s0: Snap, s: Snap, depth: nat, base: Path, max: nat, n: nat, m: nat, left: nat, i: nat,
                 files: seq<Path>, dirs: seq<Path>)
    requires depth > 0 && max > 0 && Going(s0, s, depth, base, max, n, m, left, i, files, dirs)
    requires m <= Capacity(depth, max) && Capacity(depth - 1, max) > 0 && s0.foff <= n
    requires i == max || s.foff == n || i >= (n - s0.foff) / Capacity(depth - 1, max) + 1
    ensures Added(s0, s, FilesFrom(depth, base, m, max, 0), DirsFrom(depth, base, m, max, 0))
  {
    hide Added, Capacity;
    PendingDone(depth, max, m, left, n - s.foff, i);
    assert FilesFrom(depth, base, 0, max, i) == [] && DirsFrom(depth, base, 0, max, i) == [];
    assert files + [] == files && dirs + [] == dirs;
  }

  /** The branch of setup_names_recurse for depth > 0. */
  method FillChildren(state: NameState, base: Path, foff0: nat, doff0: nat, depth: nat) returns (foff: nat, doff: nat)
    requires Ready(state) && depth > 0 && foff0 <= state.n && doff0 < state.ndirs
    requires base in state.fs && Clear(state.fs, base, 0)
    requires doff0 + SubDirs(depth, Take(depth, state.n - foff0, state.max), state.max) < state.ndirs
    modifies state`fs, state`failures, state.names, state.dirs
    ensures var m := Take(depth, state.n - foff0, state.max);
            Added(old(Now(state, foff0, doff0)), Now(state, foff, doff),
                  FilesFrom(depth, base, m, state.max, 0), DirsFrom(depth, base, m, state.max, 0))
    decreases depth, 1
  {
    hide Clear, Take, SubDirs, Files, Dirs, FilesFrom, DirsFrom, Share, Added, Going, Capacity, Pending, Filled, Slots, ToSet, Mul;
    ghost var m, s0 := Take(depth, state.n - foff0, state.max), Now(state, foff0, doff0);
    ghost var left, files: seq<Path>, dirs: seq<Path> := m, [], [];
    foff, doff := foff0, doff0;
    var count := CountFiles(depth, state.max);
    CapacityPositive(depth - 1, state.max);
    TakeFits(depth, state.n - foff0, state.max);
    GoingStart(s0, depth, base, state.max, state.n, m);
    var ndirs := (state.n - foff) / count + 1;
    var i := 0;
    while i < state.max && i < ndirs && foff < state.n
      invariant Ready(state) && i <= state.max && base in state.fs && Clear(state.fs, base, i) && foff <= state.n
      invariant Going(s0, Now(state, foff, doff), depth, base, state.max, state.n, m, left, i, files, dirs)
    {
      ghost var s := Now(state, foff, doff);
      GoingRoom(s0, s, depth, base, state.max, state.n, m, left, i, files, dirs);
      ghost var r := Share(depth, left, state.max);
      foff, doff := FillChild(state, base, foff, doff, depth, i, r);
      GoingNext(s0, s, Now(state, foff, doff), depth, base, state.max, state.n, m, left, i, files, dirs);
      files := files + Files(depth - 1, base + [i], r, state.max);
      dirs := dirs + ([base + [i]] + Dirs(depth - 1, base + [i], r, state.max));
      left := left - r;
      i := i + 1;
      GoingBound(s0, Now(state, foff, doff), depth, base, state.max, state.n, m, left, i, files, dirs);
    }
    GoingEnd(s0, Now(state, foff, doff), depth, base, state.max, state.n, m, left, i, files, dirs);
  }

  lemma GoingBound(s0: Snap, s: Snap, depth: nat, base: Path, max: nat, n: nat, m: nat, left: nat, i: nat,
                   files: seq<Path>, dirs: seq<Path>)
    requires depth > 0 && max > 0 && Going(s0, s, depth, base, max, n, m, left, i, files, dirs)
    ensures s.foff <= n
  {
  }

  // ---------- what the files are called ----------

  /** The digits of k to the base max, depth of them after the first. */
  function Digits(depth: nat, k: nat, max: nat): (p: Path)
    requires max > 0
    ensures |p| == depth + 1
  {
    if depth == 0 then [k]
    else
      CapacityPositive(depth - 1, max);
      [k / Capacity(depth - 1, max)] + Digits(depth - 1, k % Capacity(depth - 1, max), max)
  }

  /** File k below base is named by the digits of its number. */
  lemma {:induction false} FilesAreDigits(depth: nat, base: Path, m: nat, max: nat, k: nat)
    requires max > 0 && k < m
    ensures |Files(depth, base, m, max)| == m && Files(depth, base, m, max)[k] == base + Digits(depth, k, max)
    decreases depth, m, 1
  {
    FilesCount(depth, base, m, max);
    if depth > 0 {
      hide Files;
      FilesFromDigits(depth, base, m, max, 0, k);
    }
  }

  lemma {:induction false} FilesFromDigits(depth: nat, base: Path, m: nat, max: nat, i: nat, k: nat)
    requires depth > 0 && max > 0 && k < m
    ensures Capacity(depth - 1, max) > 0 && |FilesFrom(depth, base, m, max, i)| == m
    ensures var cap := Capacity(depth - 1, max);
            FilesFrom(depth, base, m, max, i)[k] == base + ([i + k / cap] + Digits(depth - 1, k % cap, max))
    decreases depth, m, 0
  {
    hide Files, Capacity, Digits;
    CapacityPositive(depth - 1, max);
    FilesFromCount(depth, base, m, max, i);
    var cap, r := Capacity(depth - 1, max), Share(depth, m, max);
    FilesCount(depth - 1, base + [i], r, max);
    if k < r {
      DivUnique(k, 0, k, cap);
      FilesAreDigits(depth - 1, base + [i], r, max, k);
      var d := Digits(depth - 1, k, max);
      assert base + [i] + d == base + ([i] + d);
    } else {
      OneLess(k, cap);
      FilesFromDigits(depth, base, m - r, max, i + 1, k - r);
    }
  }

  lemma OneLess(k: nat, cap: nat)
    requires cap > 0 && k >= cap
    ensures k / cap == (k - cap) / cap + 1 && k % cap == (k - cap) % cap
  {
    var q, r := (k - cap) / cap, (k - cap) % cap;
    assert k == (q + 1) * cap + r;
    DivUnique(k, q + 1, r, cap);
  }

  /** The directory lies on the way to one of the files. */
  ghost predicate OnTheWay(d: Path, files: seq<Path>) {
    exists k :: 0 <= k < |files| && d <= files[k]
  }

  /** No directory is made in vain. */
  lemma {:induction false} DirsNeeded(depth: nat, base: Path, m: nat, max: nat)
    requires max > 0
    ensures forall d :: d in Dirs(depth, base, m, max) ==> OnTheWay(d, Files(depth, base, m, max))
    decreases depth, m, 1
  {
    if depth > 0 {
      DirsFromNeeded(depth, base, m, max, 0);
    }
  }

  lemma {:induction false} DirsFromNeeded(depth: nat, base: Path, m: nat, max: nat, i: nat)
    requires depth > 0 && max > 0
    ensures forall d :: d in DirsFrom(depth, base, m, max, i) ==> OnTheWay(d, FilesFrom(depth, base, m, max, i))
    decreases depth, m, 0
  {
    hide Dirs, Files, Capacity;
    if m > 0 {
      CapacityPositive(depth - 1, max);
      var r := Share(depth, m, max);
      var here, rest := Files(depth - 1, base + [i], r, max), FilesFrom(depth, base, m - r, max, i + 1);
      DirsNeeded(depth - 1, base + [i], r, max);
      DirsFromNeeded(depth, base, m - r, max, i + 1);
      FilesAreDigits(depth - 1, base + [i], r, max, 0);
      assert base + [i] <= here[0];
      OnTheWayJoin(here, rest);
    }
  }

  lemma OnTheWayJoin(a: seq<Path>, b: seq<Path>)
    ensures forall d :: OnTheWay(d, a) || OnTheWay(d, b) ==> OnTheWay(d, a + b)
  {
    forall d | OnTheWay(d, a) || OnTheWay(d, b) ensures OnTheWay(d, a + b) {
      if OnTheWay(d, a) {
        var k :| 0 <= k < |a| && d <= a[k];
        assert (a + b)[k] == a[k];
      } else {
        var k :| 0 <= k < |b| && d <= b[k];
        assert (a + b)[|a| + k] == b[k];
      }
    }
  }

  /** Files are called by the digits of their numbers, no deeper than needed, and no directory is empty. */
  ghost predicate NamedByDigits(files: seq<Path>, dirs: seq<Path>, depth: nat, max: nat)
    requires max > 0
  {
    && (forall k :: 0 <= k < |files| ==> files[k] == Digits(depth, k, max))
    && (depth > 0 ==> |files| > Capacity(depth - 1, max))
    && (forall d :: d in dirs ==> OnTheWay(d, files))
  }

  lemma TreeNamed(depth: nat, n: nat, max: nat)
    requires max > 0 && n >= 1 && (depth > 0 ==> n > Capacity(depth - 1, max))
    ensures NamedByDigits(Files(depth, [], n, max), [[]] + Dirs(depth, [], n, max), depth, max)
  {
    hide Files, Dirs, Capacity, Digits;
    var files := Files(depth, [], n, max);
    FilesCount(depth, [], n, max);
    forall k | 0 <= k < n ensures files[k] == Digits(depth, k, max) {
      FilesAreDigits(depth, [], n, max, k);
      assert [] + Digits(depth, k, max) == Digits(depth, k, max);
    }
    DirsNeeded(depth, [], n, max);
    assert [] <= files[0];
  }

  // ---------- the whole tree ----------

  function Paths(a: seq<Slot>): (s: seq<Path>)
    requires forall t :: 0 <= t < |a| ==> a[t].Name?
    ensures |s| == |a| && forall t :: 0 <= t < |s| ==> a[t] == Name(s[t])
  {
    seq(|a|, t requires 0 <= t < |a| => a[t].path)
  }

  /** The root comes first and every other directory after its parent. */
  ghost predicate RootFirst(dirs: seq<Path>) {
    dirs != [] && dirs[0] == [] && forall t :: 0 < t < |dirs| ==> dirs[t] != [] && Parent(dirs[t]) in dirs[..t]
  }

  /** A tree of directories with the files in them; no name occurs twice and no directory has more than max entries. */
  ghost predicate GoodTree(files: seq<Path>, dirs: seq<Path>, max: nat) {
    && DistinctPaths(dirs + files)
    && RootFirst(dirs)
    && (forall t :: 0 <= t < |files| ==> files[t] != [] && Parent(files[t]) in dirs)
    && (forall d: Path :: |Entries(d, dirs + files)| <= max)
  }

  /** Every slot of both arrays holds a name, and exactly the named directories exist. */
  ghost predicate Stored(state: NameState)
    reads state, state.names, state.dirs
  {
    && state.names != state.dirs && state.names.Length == state.n && state.dirs.Length == state.ndirs
    && (forall t :: 0 <= t < state.n ==> state.names[t].Name?)
    && (forall t :: 0 <= t < state.ndirs ==> state.dirs[t].Name?)
    && state.fs == ToSet(Paths(state.dirs[..]))
  }

  lemma RootJoins(depth: nat, n: nat, max: nat)
    requires max > 0 && n <= Capacity(depth, max)
    ensures GoodTree(Files(depth, [], n, max), [[]] + Dirs(depth, [], n, max), max)
  {
    hide Files, Dirs, Capacity;
    var files, dirs := Files(depth, [], n, max), Dirs(depth, [], n, max);
    DirsFit(depth, [], n, max);
    FilesFit(depth, [], n, max);
    DirsDistinct(depth, [], n, max);
    FilesDistinct(depth, [], n, max);
    DirsParents(depth, [], n, max);
    FilesHoused(depth, [], n, max);
    RootDistinct(files, dirs, max, depth);
    RootParents(dirs);
    forall t | 0 <= t < |files| ensures files[t] != [] && Parent(files[t]) in [[]] + dirs {
      HousedAt(files, dirs, t);
    }
    forall d: Path ensures |Entries(d, [[]] + dirs + files)| <= max {
      RootEntries(d, files, dirs, max, depth);
    }
  }

  lemma HousedAt(files: seq<Path>, dirs: seq<Path>, t: nat)
    requires Housed(files, dirs, []) && t < |files|
    ensures files[t] != [] && Parent(files[t]) in [[]] + dirs
  {
  }

  lemma RootDistinct(files: seq<Path>, dirs: seq<Path>, max: nat, depth: nat)
    requires AllFit(dirs, [], 0, max, depth) && AllFit(files, [], 0, max, depth + 1)
    requires forall t :: 0 <= t < |files| ==> |files[t]| == depth + 1
    requires DistinctPaths(files) && DistinctPaths(dirs)
    ensures DistinctPaths([[]] + dirs + files)
  {
    var all, top := [[]] + dirs + files, 1 + |dirs|;
    assert forall t :: 0 < t < top ==> all[t] == dirs[t - 1];
    assert forall t :: top <= t < |all| ==> all[t] == files[t - top];
    forall t, u | 0 <= t < u < |all| ensures all[t] != all[u] {
      if u >= top && 0 < t < top {
        assert Fits(dirs[t - 1], [], 0, max, depth);
      } else if u < top && t == 0 {
        assert Fits(dirs[u - 1], [], 0, max, depth);
      }
    }
  }

  lemma RootParents(dirs: seq<Path>)
    requires ParentsFirst(dirs, [])
    ensures RootFirst([[]] + dirs)
  {
    var all := [[]] + dirs;
    forall t | 0 < t < |all| ensures all[t] != [] && Parent(all[t]) in all[..t] {
      assert ParentIn(dirs[t - 1], [], dirs, t - 1);
      if Parent(all[t]) == [] {
        assert all[..t][0] == [];
      } else {
        var u :| 0 <= u < t - 1 && dirs[u] == Parent(dirs[t - 1]);
        assert all[..t][u + 1] == dirs[u];
      }
    }
  }

  lemma RootEntries(d: Path, files: seq<Path>, dirs: seq<Path>, max: nat, depth: nat)
    requires AllFit(dirs, [], 0, max, depth) && AllFit(files, [], 0, max, depth + 1)
    ensures |Entries(d, [[]] + dirs + files)| <= max
  {
    forall t | 0 <= t < |dirs + files| ensures Fits((dirs + files)[t], [], 0, max, depth + 1) {
      if t < |dirs| {
        assert Fits(dirs[t], [], 0, max, depth);
      }
    }
    FewEntries(d, dirs + files, [], max, depth + 1);
    assert Entries(d, [[]] + dirs + files) == Entries(d, dirs + files);
  }

  /** What the recursion leaves when it starts from an empty root and two empty arrays. */
  lemma AllStored(s: Snap, t: Snap, files: seq<Path>, dirs: seq<Path>)
    requires Added(s, t, files, dirs) && s.foff == 0 && s.doff == 0 && |s.dirs| > 0
    requires |files| == |s.names| && |dirs| + 1 == |s.dirs| && s.dirs[0] == Name([]) && s.fs == {[]}
    ensures t.foff == |t.names| == |files| && t.doff == |t.dirs| - 1
    ensures t.names == Slots(files) && t.dirs == Slots([[]] + dirs) && t.fs == ToSet([[]] + dirs) && t.failures == s.failures
  {
    assert t.names == t.names[0..|files|];
    assert t.dirs == [t.dirs[0]] + t.dirs[1..1 + |dirs|];
    assert t.dirs[..1][0] == s.dirs[..1][0];
  }

  lemma PathsOfSlots(a: seq<Slot>, s: seq<Path>)
    requires a == Slots(s)
    ensures forall t :: 0 <= t < |a| ==> a[t].Name?
    ensures Paths(a) == s
  {
  }

  /**
   setup_names.  The error message is never due: the count of directories made beforehand is the
   number the recursion makes.
   */
  method SetupNames(state: NameState, iterations: nat) returns (error: bool, ghost depth: nat)
    requires iterations > 0 ==> Terminates(iterations, state.max)
    requires state.fs == {}
    modifies state
    ensures !error && state.max == old(state.max) && state.failures == old(state.failures)
    ensures iterations == 0 ==> state.fs == {} && state.n == old(state.n) && state.ndirs == old(state.ndirs)
                                && state.names == old(state.names) && state.dirs == old(state.dirs)
    ensures iterations > 0 ==> fresh(state.names) && fresh(state.dirs) && state.n == iterations && Stored(state)
                               && GoodTree(Paths(state.names[..]), Paths(state.dirs[..]), state.max)
                               && state.max > 0 && NamedByDigits(Paths(state.names[..]), Paths(state.dirs[..]), depth, state.max)
  {
    hide SubDirs, Files, Dirs, Capacity, Added, GoodTree, NamedByDigits, ToSet, Slots;
    if iterations == 0 {
      return false, 0;
    }
    state.n := iterations;
    var ndirs, levels := CountDirs(iterations, state.max);
    depth := levels;
    state.ndirs := ndirs;
    state.names := new Slot[iterations](_ => Null);
    state.dirs := new Slot[ndirs](_ => Null);
    state.Mkdir([]);
    state.dirs[0] := Name([]);
    ghost var s := Now(state, 0, 0);
    assert Clear(state.fs, [], 0);
    var foff, doff := SetupNamesRecurse(state, 0, 0, levels);
    ghost var files, dirs := Files(depth, [], iterations, state.max), Dirs(depth, [], iterations, state.max);
    FilesCount(depth, [], iterations, state.max);
    DirsCount(depth, [], iterations, state.max);
    AllStored(s, Now(state, foff, doff), files, dirs);
    RootJoins(depth, iterations, state.max);
    TreeNamed(depth, iterations, state.max);
    PathsOfSlots(state.names[..], files);
    PathsOfSlots(state.dirs[..], [[]] + dirs);
    error := foff != iterations || doff != state.ndirs - 1;
  }

  /** When the later directories are gone, the last one left has no other in it. */
  lemma LastIsEmpty(dirs: seq<Path>, i: nat, q: Path)
    requires RootFirst(dirs) && DistinctPaths(dirs) && i < |dirs| && q in dirs[..i + 1] && q != []
    ensures Parent(q) != dirs[i]
  {
    var u :| 0 <= u < i + 1 && dirs[u] == q;
    assert Parent(q) in dirs[..u];
    var w :| 0 <= w < u && dirs[..u][w] == Parent(q);
    assert dirs[w] == Parent(q);
  }

  lemma LastLeaves(dirs: seq<Path>, i: nat)
    requires DistinctPaths(dirs) && i < |dirs|
    ensures dirs[i] in ToSet(dirs[..i + 1]) && ToSet(dirs[..i + 1]) - {dirs[i]} == ToSet(dirs[..i])
  {
    assert dirs[..i + 1] == dirs[..i] + [dirs[i]];
    assert dirs[i] !in dirs[..i];
  }

  /** cleanup_names: every rmdir finds its directory empty, so none fails and nothing is left. */
  method CleanupNames(state: NameState, iterations: nat)
    requires iterations > 0 ==> Stored(state) && RootFirst(Paths(state.dirs[..])) && DistinctPaths(Paths(state.dirs[..]))
    modifies state
    ensures state.failures == old(state.failures) && state.max == old(state.max)
    ensures if iterations == 0 then state.fs == old(state.fs) && state.n == old(state.n) && state.ndirs == old(state.ndirs)
            else state.fs == {} && state.n == 0 && state.ndirs == 0
  {
    if iterations == 0 {
      return;
    }
    ghost var dirs := Paths(state.dirs[..]);
    state.n := 0;
    var i: int := state.ndirs - 1;
    assert dirs[..i + 1] == dirs;
    while i >= 0
      invariant -1 <= i < |dirs| == state.dirs.Length && state.dirs == old(state.dirs)
      invariant forall t :: 0 <= t < |dirs| ==> state.dirs[t] == Name(dirs[t])
      invariant state.fs == ToSet(dirs[..i + 1]) && state.failures == old(state.failures) && state.max == old(state.max)
      invariant state.n == 0
    {
      if state.dirs[i].Name? {
        LastLeaves(dirs, i);
        forall q | q in state.fs && q != [] ensures Parent(q) != dirs[i] {
          LastIsEmpty(dirs, i, q);
        }
        state.Rmdir(state.dirs[i].path);
      }
      i := i - 1;
    }
    state.ndirs := 0;
  }

  lemma TreeCleansUp(files: seq<Path>, dirs: seq<Path>, max: nat)
    requires GoodTree(files, dirs, max)
    ensures RootFirst(dirs) && DistinctPaths(dirs)
  {
    forall t, u | 0 <= t < u < |dirs| ensures dirs[t] != dirs[u] {
      assert (dirs + files)[t] != (dirs + files)[u];
    }
  }
}
