/** The two ways in which pages are put into a random order, and which orders they reach. */
module Shuffles {
  import opened Arith
  import opened PointerChain
  import opened Tables
  import opened Counting

  /** A new last entry n, exchanged with entry r, or left where it is. */
  function Insert(o: seq<nat>, r: nat): (t: seq<nat>)
    requires r <= |o|
    ensures |t| == |o| + 1
  {
    seq(|o| + 1, p requires 0 <= p < |o| + 1 => if p == |o| then r else if o[p] == r then |o| else o[p])
  }

  /** Entry k may be exchanged with itself or an earlier one. */
  ghost predicate Picks(picks: seq<nat>) {
    forall k :: 0 <= k < |picks| ==> picks[k] <= k
  }

  /** The order of the numbers below |picks| that the exchanges make: entry p of the result is entry Order[p] of the start. */
  ghost function Order(picks: seq<nat>): (o: seq<nat>)
    requires Picks(picks)
    ensures |o| == |picks|
  {
    if picks == [] then [] else Insert(Order(picks[..|picks| - 1]), picks[|picks| - 1])
  }

  /** All numbers below its length, each once. */
  ghost predicate IsOrder(o: seq<nat>) {
    && (forall p :: 0 <= p < |o| ==> o[p] < |o|)
    && (forall p, q :: 0 <= p < q < |o| ==> o[p] != o[q])
  }

  // ---------- the loop ----------

  /** Exchange entry i with entry picks[i], then entry i-1, and so on down to the second. */
  function Shuffled(s: seq<int>, picks: seq<nat>, i: nat): (t: seq<int>)
    requires i < |s| && i < |picks| && forall k :: 0 <= k <= i ==> picks[k] <= k
    ensures |t| == |s|
    decreases i
  {
    if i == 0 then s else Shuffled(Swap(s, picks[i], i), picks, i - 1)
  }

  lemma {:induction false} ShuffledOrder(s: seq<int>, picks: seq<nat>, i: nat)
    requires i < |s| && i < |picks| && Picks(picks)
    ensures Picks(picks[..i + 1])
    ensures forall p :: 0 <= p <= i ==> Order(picks[..i + 1])[p] <= i && Shuffled(s, picks, i)[p] == s[Order(picks[..i + 1])[p]]
    ensures forall p :: i < p < |s| ==> Shuffled(s, picks, i)[p] == s[p]
    decreases i
  {
    var first, r := picks[..i], picks[i];
    assert picks[..i + 1][..i] == first;
    assert Order(picks[..i + 1]) == Insert(Order(first), r);
    OrderIsOrder(first);
    if i > 0 {
      var u := Swap(s, r, i);
      ShuffledOrder(u, picks, i - 1);
      assert Shuffled(s, picks, i) == Shuffled(u, picks, i - 1);
    }
  }

  /** The entries that permutation exchanges with, for the random numbers in use when it gets to each entry. */
  function Chosen(rand: nat -> nat, n: nat): (picks: seq<nat>)
    ensures |picks| == n && forall k :: 0 <= k < n ==> picks[k] <= k
  {
    seq(n, k requires 0 <= k < n => rand(k) % (k + 1))
  }

  /** Those that tlb_initialize exchanges with: always an earlier entry. */
  function ChosenEarlier(rand: nat -> nat, n: nat): (picks: seq<nat>)
    ensures |picks| == n && forall k :: 0 <= k < n ==> picks[k] <= k && (k > 0 ==> picks[k] < k)
  {
    seq(n, k requires 0 <= k < n => if k == 0 then 0 else rand(k) % k)
  }

  /** permutation: multiples of scale in the order that the random numbers make. */
  method Permutation(max: nat, scale: nat, rand: nat -> nat) returns (result: array<int>)
    requires scale > 0
    ensures fresh(result) && result.Length == max && Paged(result[..], scale, Mul(max, scale))
    ensures forall p :: 0 <= p < max ==> Order(Chosen(rand, max))[p] < max && result[p] == Mul(Order(Chosen(rand, max))[p], scale)
  {
    hide Mul, Multiple, Paged, Order, Shuffled;
    result := new int[max](i requires 0 <= i => Mul(i, scale));
    ghost var start, picks := result[..], Chosen(rand, max);
    InOrder(start, max, scale);
    OrderIsOrder(picks);
    if max > 0 {
      assert picks[..max] == picks;
      ShuffledOrder(start, picks, max - 1);
      ShuffledPaged(start, picks, max - 1, scale, Mul(max, scale));
      Exchange(result, rand);
    }
  }

  /** Its loop. */
  method Exchange(result: array<int>, rand: nat -> nat)
    requires result.Length > 0
    modifies result
    ensures result[..] == Shuffled(old(result[..]), Chosen(rand, result.Length), result.Length - 1)
  {
    hide Shuffled, Swap;
    ghost var start, picks := result[..], Chosen(rand, result.Length);
    var i := result.Length - 1;
    while i > 0
      invariant 0 <= i < result.Length
      invariant Shuffled(result[..], picks, i) == Shuffled(start, picks, result.Length - 1)
      decreases i
    {
      ghost var before := result[..];
      var r := rand(i) % (i + 1);
      var v := result[r];
      result[r] := result[i];
      result[i] := v;
      SwapIs(before, result[..], r, i);
      ShuffledStep(before, picks, i);
      i := i - 1;
    }
    ShuffledEnd(result[..], picks);
  }

  lemma {:induction false} ShuffledPaged(s: seq<int>, picks: seq<nat>, i: nat, pagesize: nat, size: nat)
    requires i < |s| && i < |picks| && Picks(picks) && Paged(s, pagesize, size)
    ensures Paged(Shuffled(s, picks, i), pagesize, size)
    decreases i
  {
    hide Paged, Swap;
    if i > 0 {
      SwapPaged(s, picks[i], i, pagesize, size);
      ShuffledPaged(Swap(s, picks[i], i), picks, i - 1, pagesize, size);
    }
  }

  lemma SwapIs(s: seq<int>, t: seq<int>, a: nat, b: nat)
    requires a < |s| && b < |s| && t == s[a := s[b]][b := s[a]]
    ensures t == Swap(s, a, b)
  {
  }

  lemma ShuffledStep(s: seq<int>, picks: seq<nat>, i: nat)
    requires 0 < i < |s| && i < |picks| && Picks(picks)
    ensures Shuffled(s, picks, i) == Shuffled(Swap(s, picks[i], i), picks, i - 1)
  {
  }

  lemma ShuffledEnd(s: seq<int>, picks: seq<nat>)
    requires s != [] && picks != [] && Picks(picks)
    ensures Shuffled(s, picks, 0) == s
  {
  }

  // ---------- which orders it reaches ----------

  lemma InsertIsOrder(o: seq<nat>, r: nat)
    requires IsOrder(o) && r <= |o|
    ensures IsOrder(Insert(o, r))
  {
  }

  lemma {:induction false} OrderIsOrder(picks: seq<nat>)
    requires Picks(picks)
    ensures IsOrder(Order(picks))
  {
    if picks != [] {
      OrderIsOrder(picks[..|picks| - 1]);
      InsertIsOrder(Order(picks[..|picks| - 1]), picks[|picks| - 1]);
    }
  }

  /** The order without its last number, and the entry that number was exchanged with. */
  function Removed(t: seq<nat>): (o: seq<nat>)
    requires t != []
    ensures |o| == |t| - 1
  {
    var n := |t| - 1;
    seq(n, p requires 0 <= p < n => if t[p] == n then t[n] else t[p])
  }

  lemma RemovedInserted(t: seq<nat>)
    requires t != [] && IsOrder(t)
    ensures IsOrder(Removed(t)) && t[|t| - 1] < |t| && Insert(Removed(t), t[|t| - 1]) == t
  {
  }

  /** Every order is reached, by one choice of exchanges only. */
  lemma {:induction false} EveryOrderReached(t: seq<nat>) returns (picks: seq<nat>)
    requires IsOrder(t)
    ensures Picks(picks) && Order(picks) == t
    decreases |t|
  {
    if t == [] {
      picks := [];
    } else {
      RemovedInserted(t);
      var first := EveryOrderReached(Removed(t));
      picks := first + [t[|t| - 1]];
      assert picks[..|picks| - 1] == first;
    }
  }

  /** permutation reaches every order. */
  lemma AnyOrder(t: seq<nat>) returns (rand: nat -> nat)
    requires IsOrder(t)
    ensures Order(Chosen(rand, |t|)) == t
  {
    var picks := EveryOrderReached(t);
    rand := (k: nat) => if k < |picks| then picks[k] else 0;
    forall k | 0 <= k < |t| ensures Chosen(rand, |t|)[k] == picks[k] {
      SmallMod(picks[k], k + 1);
    }
    assert Chosen(rand, |t|) == picks;
  }

  lemma {:induction false} OneChoiceOnly(a: seq<nat>, b: seq<nat>)
    requires Picks(a) && Picks(b) && Order(a) == Order(b)
    ensures a == b
    decreases |a|
  {
    if a != [] {
      var n := |a| - 1;
      var x, y := Order(a[..n]), Order(b[..n]);
      OrderIsOrder(a[..n]);
      OrderIsOrder(b[..n]);
      assert Insert(x, a[n])[n] == Insert(y, b[n])[n];
      InsertInjective(x, y, a[n]);
      OneChoiceOnly(a[..n], b[..n]);
      assert a == a[..n] + [a[n]] && b == b[..n] + [b[n]];
    }
  }

  lemma InsertInjective(x: seq<nat>, y: seq<nat>, r: nat)
    requires IsOrder(x) && IsOrder(y) && r <= |x| == |y| && Insert(x, r) == Insert(y, r)
    ensures x == y
  {
    forall p | 0 <= p < |x| ensures x[p] == y[p] {
      assert Insert(x, r)[p] == Insert(y, r)[p];
    }
  }

  // ---------- orders of a single cycle ----------

  /** A closed path from entry to entry. */
  ghost predicate Loop(o: seq<nat>, path: seq<int>) {
    path != [] && Segment(o, path) && Distinct(path) && o[Last(path)] == path[0]
  }

  /** One cycle through all entries: nothing stays in place, unless there is only one entry. */
  ghost predicate Cyclic(o: seq<nat>) {
    exists path: seq<int> :: Loop(o, path) && |path| == |o|
  }

  lemma Rotated(o: seq<nat>, path: seq<int>, k: nat) returns (turned: seq<int>)
    requires Loop(o, path) && k < |path|
    ensures turned == path[k..] + path[..k] && Loop(o, turned)
  {
    turned := path[k..] + path[..k];
    var n := |path|;
    forall t | 0 <= t < n - 1 ensures o[turned[t]] == turned[t + 1] {
      var i := if t + k < n then t + k else t + k - n;
      assert turned[t] == path[i];
      assert turned[t + 1] == path[if i + 1 < n then i + 1 else 0];
    }
    assert turned[n - 1] == path[if k == 0 then n - 1 else k - 1];
    forall t, u | 0 <= t < u < n ensures turned[t] != turned[u] {
      assert turned[t] == path[if t + k < n then t + k else t + k - n];
      assert turned[u] == path[if u + k < n then u + k else u + k - n];
    }
  }

  /** A loop as long as the order passes every entry. */
  lemma LoopPasses(o: seq<nat>, path: seq<int>, x: nat) returns (k: nat)
    requires Loop(o, path) && |path| == |o| && x < |o|
    ensures k < |path| && path[k] == x
  {
    DistinctSize(path);
    NumbersSize(|o|);
    if x !in path {
      SubsetSize(Elements(path), Numbers(|o|) - {x});
      assert false;
    }
    k :| 0 <= k < |path| && path[k] == x;
  }

  /** A new last number joins the cycle when it is exchanged with an earlier entry. */
  lemma InsertCyclic(o: seq<nat>, r: nat)
    requires o != [] && IsOrder(o) && r < |o| && Cyclic(o)
    ensures Cyclic(Insert(o, r))
  {
    var path :| Loop(o, path) && |path| == |o|;
    var k := LoopPasses(o, path, r);
    var turned := Rotated(o, path, k);
    var t, longer := Insert(o, r), turned + [|o|];
    forall u | 0 <= u < |longer| - 1 ensures t[longer[u]] == longer[u + 1] {
      if u < |turned| - 1 {
        assert o[turned[u]] == turned[u + 1];
        assert turned[u + 1] != turned[0];
      }
    }
    assert Loop(t, longer);
  }

  /** A cycle with the last number in it is one without it, and the number was not left in place. */
  lemma CyclicInsert(o: seq<nat>, r: nat)
    requires o != [] && IsOrder(o) && r <= |o| && Cyclic(Insert(o, r))
    ensures r < |o| && Cyclic(o)
  {
    var t, n := Insert(o, r), |o|;
    var path :| Loop(t, path) && |path| == |t|;
    var k := LoopPasses(t, path, n);
    var first := if k + 1 == |path| then 0 else k + 1;
    var turned := Rotated(t, path, first);
    var shorter := turned[..n];
    assert turned[n] == n;
    assert turned[0] == r;
    forall u | 0 <= u < n - 1 ensures o[shorter[u]] == shorter[u + 1] {
      assert t[turned[u]] == turned[u + 1];
    }
    assert t[turned[n - 1]] == turned[n];
    assert Loop(o, shorter);
  }

  /** Exactly when every entry but the first is exchanged with an earlier one, the order is one cycle. */
  lemma {:induction false} CyclicExactly(picks: seq<nat>)
    requires Picks(picks)
    ensures Cyclic(Order(picks)) <==> picks != [] && forall k :: 1 <= k < |picks| ==> picks[k] < k
  {
    if |picks| <= 1 {
      SmallCyclic(picks);
    } else {
      var n := |picks| - 1;
      var first, r := picks[..n], picks[n];
      CyclicExactly(first);
      OrderIsOrder(first);
      if r < n && Cyclic(Order(first)) {
        InsertCyclic(Order(first), r);
      }
      if Cyclic(Order(picks)) {
        CyclicInsert(Order(first), r);
      }
    }
  }

  lemma SmallCyclic(picks: seq<nat>)
    requires Picks(picks) && |picks| <= 1
    ensures Cyclic(Order(picks)) <==> picks != []
  {
    if picks == [] {
      assert !exists path: seq<int> :: Loop([], path) && |path| == 0;
    } else {
      assert picks[..0] == [];
      assert Order(picks) == [0];
      assert Loop([0], [0]);
    }
  }

  /** In such an order of several entries none is in place. */
  lemma CyclicMoves(o: seq<nat>, p: nat)
    requires IsOrder(o) && Cyclic(o) && p < |o| && |o| >= 2
    ensures o[p] != p
  {
    var path :| Loop(o, path) && |path| == |o|;
    var k := LoopPasses(o, path, p);
    assert if k + 1 == |path| then o[path[k]] == path[0] else o[path[k]] == path[k + 1];
  }

  lemma EarlierReaches(t: seq<nat>) returns (rand: nat -> nat)
    requires IsOrder(t) && t != [] && Cyclic(t)
    ensures Order(ChosenEarlier(rand, |t|)) == t
  {
    hide Order, Cyclic, IsOrder;
    var picks := EveryOrderReached(t);
    CyclicExactly(picks);
    rand := (k: nat) => if k < |picks| then picks[k] else 0;
    forall k | 0 <= k < |t| ensures ChosenEarlier(rand, |t|)[k] == picks[k] {
      SmallMod(picks[k], if k == 0 then 1 else k);
    }
    assert ChosenEarlier(rand, |t|) == picks;
  }

  /** tlb_initialize reaches the orders of a single cycle and no others. */
  lemma EarlierExactly(t: seq<nat>)
    requires IsOrder(t) && t != []
    ensures (exists rand: nat -> nat :: Order(ChosenEarlier(rand, |t|)) == t) <==> Cyclic(t)
  {
    hide Order, Cyclic, IsOrder, ChosenEarlier;
    if rand: nat -> nat :| Order(ChosenEarlier(rand, |t|)) == t {
      CyclicExactly(ChosenEarlier(rand, |t|));
    }
    if Cyclic(t) {
      var rand := EarlierReaches(t);
    }
  }
}
