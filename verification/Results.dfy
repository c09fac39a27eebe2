/** The sample arrays of lib_timing.c: insertsort, merging the children's blocks, and the median. */
module Results {
  import Arith

  const TRIES: nat := 11

  datatype Value = Value(u: nat, n: nat)

  /** Time per iteration; a sample always covers at least one iteration. */
  function Ratio(v: Value): real {
    if v.n == 0 then 0.0 else v.u as real / v.n as real
  }

  ghost predicate Counted(s: seq<Value>) {
    forall i :: 0 <= i < |s| ==> s[i].n > 0
  }

  /** Biggest to smallest. */
  ghost predicate Descending(s: seq<Value>) {
    forall i, j :: 0 <= i < j < |s| ==> Ratio(s[i]) >= Ratio(s[j])
  }

  /** sizeof_result: how many samples an allocation for this many repetitions holds. */
  function Capacity(repetitions: int): nat {
    if repetitions <= TRIES then TRIES else repetitions
  }

  /** The first position whose sample is strictly smaller than v. */
  function Position(v: Value, s: seq<Value>): (i: nat)
    ensures i <= |s|
    ensures forall j :: 0 <= j < i ==> Ratio(s[j]) >= Ratio(v)
    ensures i < |s| ==> Ratio(v) > Ratio(s[i])
  {
    if s == [] || Ratio(v) > Ratio(s[0]) then 0
    else 1 + Position(v, s[1..])
  }

  /** Samples of zero time are dropped; any other goes in front of the first smaller one. */
  function Insert(v: Value, s: seq<Value>): seq<Value> {
    if v.u == 0 then s
    else s[..Position(v, s)] + [v] + s[Position(v, s)..]
  }

  lemma PositionIsFirst(v: Value, s: seq<Value>, i: nat)
    requires i <= |s|
    requires forall j :: 0 <= j < i ==> !(Ratio(v) > Ratio(s[j]))
    requires i < |s| ==> Ratio(v) > Ratio(s[i])
    ensures i == Position(v, s)
  {
  }

  lemma InsertKeepsOrder(v: Value, s: seq<Value>)
    requires Descending(s)
    ensures Descending(Insert(v, s))
    ensures Counted(s) && v.n > 0 ==> Counted(Insert(v, s))
  {
    if v.u != 0 {
      var i, t := Position(v, s), Insert(v, s);
      forall a, b | 0 <= a < b < |t|
        ensures Ratio(t[a]) >= Ratio(t[b])
      {
        if i <= a && i < |s| {
          assert Ratio(s[i]) >= Ratio(s[b - 1]);
        }
      }
    }
  }

  function Kept(v: Value): multiset<Value> {
    if v.u == 0 then multiset{} else multiset{v}
  }

  lemma InsertAdds(v: Value, s: seq<Value>)
    ensures multiset(Insert(v, s)) == multiset(s) + Kept(v)
  {
    var i := Position(v, s);
    assert s == s[..i] + s[i..];
  }

  /** result_t: an array of samples of which the first N are in use. */
  class ResultSet {
    var N: nat
    const v: array<Value>

    ghost predicate Valid()
      reads this, v
    {
      N <= v.Length && Counted(v[..N]) && Descending(v[..N])
    }

    ghost function Samples(): seq<Value>
      reads this, v
      requires N <= v.Length
    {
      v[..N]
    }

    constructor (repetitions: int)
      ensures Valid() && fresh(v) && v.Length == Capacity(repetitions) && Samples() == []
    {
      v := new Value[Capacity(repetitions)](_ => Value(0, 1));
      N := 0;
    }

    /** Shift-and-insert in place. */
    method Insertsort(u: nat, n: nat)
      requires Valid() && n > 0 && (u > 0 ==> N < v.Length)
      modifies this`N, v
      ensures Valid() && Samples() == Insert(Value(u, n), old(Samples()))
    {
      if u == 0 {
        return;
      }
      hide Ratio, Position, Descending, Counted;
      ghost var before := Samples();
      var x := Value(u, n);
      InsertKeepsOrder(x, before);
      var i := FindPlace(x);
      ShiftUp(i);
      ghost var shifted := v[..];
      v[i] := x;
      Assembled(before, shifted, i, x);
      N := N + 1;
      assert v[..] == shifted[i := x];
      assert v[..N] == v[..][..N];
    }

    /** The scan of insertsort for the first smaller sample. */
    method FindPlace(x: Value) returns (i: nat)
      requires N <= v.Length
      ensures i == Position(x, v[..N]) <= N
    {
      hide Ratio, Position;
      i := 0;
      while i < N && !(Ratio(x) > Ratio(v[i]))
        invariant i <= N && forall j :: 0 <= j < i ==> !(Ratio(x) > Ratio(v[j]))
      {
        i := i + 1;
      }
      PositionIsFirst(x, v[..N], i);
    }

    /** The samples of one block, one after the other. */
    method MergeBlock(block: seq<Value>)
      requires Valid() && Nonzero(block) && N + |block| <= v.Length
      modifies this`N, v
      ensures Valid() && Samples() == InsertAll(old(Samples()), block) && N <= old(N) + |block|
    {
      ghost var before := Samples();
      var j := 0;
      while j < |block|
        invariant j <= |block| && Valid() && N <= old(N) + j
        invariant Samples() == InsertAll(before, block[..j])
      {
        Insertsort(block[j].u, block[j].n);
        assert block[..j + 1][..j] == block[..j];
        j := j + 1;
      }
      assert block[..j] == block;
    }

    /** The inner loop of insertsort: make room at position i. */
    method ShiftUp(i: nat)
      requires i <= N < v.Length
      modifies v
      ensures v[..i] == old(v[..i]) && v[i + 1..N + 1] == old(v[i..N])
      ensures v[..][..i] == old(v[..N])[..i] && v[..][i + 1..N + 1] == old(v[..N])[i..]
    {
      var j := N;
      while j > i
        invariant i <= j <= N
        invariant v[..j] == old(v[..j])
        invariant forall k :: j < k <= N ==> v[k] == old(v[k - 1])
      {
        v[j] := v[j - 1];
        j := j - 1;
      }
    }
  }

  lemma Assembled(before: seq<Value>, shifted: seq<Value>, i: nat, x: Value)
    requires i <= |before| < |shifted|
    requires shifted[..i] == before[..i] && shifted[i + 1..|before| + 1] == before[i..]
    ensures shifted[i := x][..|before| + 1] == before[..i] + [x] + before[i..]
  {
  }

  // ---------- merging ----------

  function InsertAll(acc: seq<Value>, s: seq<Value>): seq<Value>
    decreases |s|
  {
    if s == [] then acc else Insert(s[|s| - 1], InsertAll(acc, s[..|s| - 1]))
  }

  /** The merge of the children's blocks in the order in which they arrive. */
  function MergeAll(order: seq<nat>, samples: seq<seq<Value>>): seq<Value>
    requires forall j :: 0 <= j < |order| ==> order[j] < |samples|
  {
    if order == [] then []
    else InsertAll(MergeAll(order[..|order| - 1], samples), samples[order[|order| - 1]])
  }

  ghost predicate Nonzero(s: seq<Value>) {
    forall i :: 0 <= i < |s| ==> s[i].u > 0 && s[i].n > 0
  }

  lemma {:induction false} InsertAllIsUnion(acc: seq<Value>, s: seq<Value>)
    requires Descending(acc) && Counted(acc) && Nonzero(s)
    ensures Descending(InsertAll(acc, s)) && Counted(InsertAll(acc, s))
    ensures multiset(InsertAll(acc, s)) == multiset(acc) + multiset(s)
    ensures |InsertAll(acc, s)| == |acc| + |s|
  {
    if s != [] {
      var rest, x := s[..|s| - 1], s[|s| - 1];
      InsertAllIsUnion(acc, rest);
      InsertKeepsOrder(x, InsertAll(acc, rest));
      InsertAdds(x, InsertAll(acc, rest));
      assert s == rest + [x];
    }
  }

  /** All samples of all children, child after child. */
  function Flatten(samples: seq<seq<Value>>): seq<Value> {
    if samples == [] then [] else Flatten(samples[..|samples| - 1]) + samples[|samples| - 1]
  }

  function Pick(order: seq<nat>, samples: seq<seq<Value>>): (picked: seq<seq<Value>>)
    requires forall j :: 0 <= j < |order| ==> order[j] < |samples|
    ensures |picked| == |order|
  {
    seq(|order|, j requires 0 <= j < |order| => samples[order[j]])
  }

  lemma {:induction false} MergeIsUnion(order: seq<nat>, samples: seq<seq<Value>>)
    requires forall j :: 0 <= j < |order| ==> order[j] < |samples|
    requires forall c :: 0 <= c < |samples| ==> Nonzero(samples[c])
    ensures Descending(MergeAll(order, samples)) && Counted(MergeAll(order, samples))
    ensures multiset(MergeAll(order, samples)) == multiset(Flatten(Pick(order, samples)))
  {
    if order != [] {
      var n := |order| - 1;
      MergeIsUnion(order[..n], samples);
      assert Pick(order, samples)[..n] == Pick(order[..n], samples);
      InsertAllIsUnion(MergeAll(order[..n], samples), samples[order[n]]);
    }
  }

  ghost predicate Permutes(order: seq<nat>, n: nat) {
    && |order| == n
    && (forall j :: 0 <= j < n ==> order[j] < n)
    && (forall i, j :: 0 <= i < j < n ==> order[i] != order[j])
    && (forall c: nat :: c < n ==> c in order)
  }

  lemma SplitLast(a: seq<seq<Value>>, b: seq<seq<Value>>)
    requires b != []
    ensures var n, s := |b| - 1, a + b; s[..|s| - 1] == a + b[..n] && s[|s| - 1] == b[n]
  {
  }

  lemma {:induction false} FlattenSplit(a: seq<seq<Value>>, b: seq<seq<Value>>)
    ensures Flatten(a + b) == Flatten(a) + Flatten(b)
  {
    if b == [] {
      assert a + b == a;
    } else {
      var n, s := |b| - 1, a + b;
      SplitLast(a, b);
      FlattenSplit(a, b[..n]);
      assert Flatten(s) == Flatten(s[..|s| - 1]) + s[|s| - 1];
      assert Flatten(b) == Flatten(b[..n]) + b[n];
    }
  }

  lemma RemoveLargest(order: seq<nat>, n: nat, k: nat)
    requires Permutes(order, n + 1) && k < |order| && order[k] == n
    ensures Permutes(order[..k] + order[k + 1..], n)
  {
    var order' := order[..k] + order[k + 1..];
    forall c: nat | c < n ensures c in order' {
      assert c in order;
      var j: nat :| j < |order| && order[j] == c;
      assert order'[if j < k then j else j - 1] == c;
    }
  }

  lemma FlattenWithout(order: seq<nat>, samples: seq<seq<Value>>, k: nat)
    requires k < |order| && forall j :: 0 <= j < |order| ==> order[j] < |samples|
    ensures multiset(Flatten(Pick(order, samples))) ==
            multiset(Flatten(Pick(order[..k] + order[k + 1..], samples))) + multiset(samples[order[k]])
  {
    var a, b := Pick(order[..k], samples), Pick(order[k + 1..], samples);
    var x := samples[order[k]];
    assert Pick(order, samples) == a + [x] + b;
    assert Pick(order[..k] + order[k + 1..], samples) == a + b;
    FlattenSplit(a + [x], b);
    FlattenSplit(a, [x]);
    FlattenSplit(a, b);
    assert Flatten([x]) == Flatten([x][..0]) + x;
  }

  lemma FlattenLast(samples: seq<seq<Value>>)
    requires samples != []
    ensures var n := |samples| - 1;
            multiset(Flatten(samples)) == multiset(Flatten(samples[..n])) + multiset(samples[n])
  {
  }

  lemma PickSub(order: seq<nat>, samples: seq<seq<Value>>, n: nat)
    requires n <= |samples| && forall j :: 0 <= j < |order| ==> order[j] < n
    ensures Pick(order, samples[..n]) == Pick(order, samples)
  {
  }

  /** Arrival order does not matter to what was collected. */
  lemma {:induction false} FlattenPermuted(order: seq<nat>, samples: seq<seq<Value>>)
    requires Permutes(order, |samples|)
    ensures multiset(Flatten(Pick(order, samples))) == multiset(Flatten(samples))
  {
    hide Flatten, Pick;
    if samples == [] {
      assert Pick(order, samples) == samples;
    } else {
      var n := |samples| - 1;
      assert n in order;
      var k: nat :| k < |order| && order[k] == n;
      var order' := order[..k] + order[k + 1..];
      RemoveLargest(order, n, k);
      FlattenPermuted(order', samples[..n]);
      PickSub(order', samples, n);
      FlattenWithout(order, samples, k);
      FlattenLast(samples);
    }
  }

  lemma {:induction false} FlattenBound(samples: seq<seq<Value>>, most: nat)
    requires forall c :: 0 <= c < |samples| ==> |samples[c]| <= most
    ensures |Flatten(samples)| <= Arith.Mul(|samples|, most)
  {
    hide Arith.Mul;
    Arith.MulSmall(most);
    if samples != [] {
      FlattenBound(samples[..|samples| - 1], most);
      Arith.MulPlus(|samples| - 1, 1, most);
    }
  }

  lemma {:induction false} FlattenExact(samples: seq<seq<Value>>, each: nat)
    requires forall c :: 0 <= c < |samples| ==> |samples[c]| == each
    ensures |Flatten(samples)| == Arith.Mul(|samples|, each)
  {
    hide Arith.Mul;
    Arith.MulSmall(each);
    if samples != [] {
      FlattenExact(samples[..|samples| - 1], each);
      Arith.MulPlus(|samples| - 1, 1, each);
    }
  }

  ghost predicate AllNonzero(samples: seq<seq<Value>>) {
    forall c :: 0 <= c < |samples| ==> Nonzero(samples[c])
  }

  /** The parent's merge of every child's block, in whatever order they arrive: the descending union of all samples. */
  lemma MergedResults(order: seq<nat>, samples: seq<seq<Value>>)
    requires Permutes(order, |samples|) && AllNonzero(samples)
    ensures Descending(MergeAll(order, samples)) && Counted(MergeAll(order, samples))
    ensures multiset(MergeAll(order, samples)) == multiset(Flatten(samples))
    ensures |MergeAll(order, samples)| == |Flatten(samples)|
  {
    MergeIsUnion(order, samples);
    FlattenPermuted(order, samples);
    assert |multiset(MergeAll(order, samples))| == |multiset(Flatten(samples))|;
  }

  /** What has been merged, and the block that comes next, are part of all samples. */
  lemma PartFits(order: seq<nat>, samples: seq<seq<Value>>, i: nat)
    requires Permutes(order, |samples|) && AllNonzero(samples) && i < |order|
    ensures |MergeAll(order[..i], samples)| + |samples[order[i]]| <= |Flatten(samples)|
  {
    hide MergeAll, Flatten;
    var a, b := order[..i], order[i..];
    assert order == a + b && b[0] == order[i];
    MergeIsUnion(a, samples);
    FlattenPermuted(order, samples);
    assert Pick(order, samples) == Pick(a, samples) + Pick(b, samples);
    FlattenSplit(Pick(a, samples), Pick(b, samples));
    assert Pick(b, samples) == [samples[order[i]]] + Pick(b[1..], samples);
    FlattenSplit([samples[order[i]]], Pick(b[1..], samples));
    FlattenOne(samples[order[i]]);
    assert |multiset(MergeAll(a, samples))| == |multiset(Flatten(Pick(a, samples)))|;
    assert |multiset(Flatten(Pick(order, samples)))| == |multiset(Flatten(samples))|;
  }

  lemma FlattenOne(s: seq<Value>)
    ensures Flatten([s]) == s
  {
    assert [s][..0] == [];
  }

  /** The merge loop of benchmp_parent over the blocks as they arrive; all samples fit merged_results. */
  method CollectResults(order: seq<nat>, samples: seq<seq<Value>>, total: int) returns (merged: ResultSet)
    requires Permutes(order, |samples|) && AllNonzero(samples) && |Flatten(samples)| <= Capacity(total)
    ensures fresh(merged) && merged.Valid() && merged.Samples() == MergeAll(order, samples)
  {
    hide Flatten, Permutes;
    OrderInRange(order, |samples|);
    merged := new ResultSet(total);
    var i := 0;
    while i < |order|
      invariant i <= |order| && fresh(merged) && fresh(merged.v) && merged.Valid()
      invariant merged.v.Length == Capacity(total)
      invariant merged.Samples() == MergeAll(order[..i], samples)
    {
      PartFits(order, samples, i);
      merged.MergeBlock(samples[order[i]]);
      assert order[..i + 1][..i] == order[..i];
      i := i + 1;
    }
    assert order[..i] == order;
  }

  lemma OrderInRange(order: seq<nat>, n: nat)
    requires Permutes(order, n)
    ensures |order| == n && forall j :: 0 <= j < |order| ==> order[j] < n
  {
  }

  /** Room for as many samples as children take, each of them at least one, in an array for all repetitions. */
  lemma RoomExactly(children: nat, repetitions: int)
    ensures Arith.Mul(children, if repetitions >= 1 then repetitions else 1) <= Capacity(children * repetitions)
       <==> repetitions >= 1 || children <= TRIES
  {
    if repetitions <= 0 {
      assert children * repetitions <= 0;
    }
  }
}
