/** Counting the elements of a sequence that satisfy a predicate. */
module Counting {

  function Bit(b: bool): nat {
    if b then 1 else 0
  }

  function Count<T>(s: seq<T>, p: T -> bool): (n: nat)
    ensures n <= |s|
  {
    if s == [] then 0 else Bit(p(s[0])) + Count(s[1..], p)
  }

  lemma {:induction false} CountUpdate<T>(s: seq<T>, i: nat, x: T, p: T -> bool)
    requires i < |s|
    ensures Count(s[i := x], p) + Bit(p(s[i])) == Count(s, p) + Bit(p(x))
  {
    if i == 0 {
      assert s[i := x][1..] == s[1..];
    } else {
      assert s[i := x][1..] == s[1..][i - 1 := x];
      CountUpdate(s[1..], i - 1, x, p);
    }
  }

  lemma {:induction false} CountFull<T>(s: seq<T>, p: T -> bool)
    ensures Count(s, p) == |s| <==> forall i :: 0 <= i < |s| ==> p(s[i])
  {
    if s != [] {
      CountFull(s[1..], p);
      assert forall i :: 0 < i < |s| ==> s[i] == s[1..][i - 1];
      assert forall i :: 0 <= i < |s| - 1 ==> s[1..][i] == s[i + 1];
    }
  }

  lemma {:induction false} CountZero<T>(s: seq<T>, p: T -> bool)
    ensures Count(s, p) == 0 <==> forall i :: 0 <= i < |s| ==> !p(s[i])
  {
    if s != [] {
      CountZero(s[1..], p);
      assert forall i :: 0 < i < |s| ==> s[i] == s[1..][i - 1];
      assert forall i :: 0 <= i < |s| - 1 ==> s[1..][i] == s[i + 1];
    }
  }

  /** Predicates that exclude each other share the sequence between them. */
  lemma {:induction false} CountDisjoint<T>(s: seq<T>, p: T -> bool, q: T -> bool)
    requires forall i :: 0 <= i < |s| ==> !(p(s[i]) && q(s[i]))
    ensures Count(s, p) + Count(s, q) <= |s|
  {
    if s != [] {
      assert forall i :: 0 <= i < |s| - 1 ==> s[1..][i] == s[i + 1];
      CountDisjoint(s[1..], p, q);
    }
  }

  lemma CountMiddle<T>(a: seq<T>, x: T, b: seq<T>, p: T -> bool)
    ensures Count(a + [x] + b, p) == Count(a + b, p) + Bit(p(x))
  {
    CountConcat(a + [x], b, p);
    CountConcat(a, [x], p);
    CountConcat(a, b, p);
    assert Count([x], p) == Bit(p(x)) + Count([x][1..], p);
  }

  lemma MultisetMiddle<T>(a: seq<T>, x: T, b: seq<T>)
    ensures multiset(a + [x] + b) == multiset(a + b) + multiset{x}
  {
    assert multiset(a + [x] + b) == multiset(a + [x]) + multiset(b);
    assert multiset(a + [x]) == multiset(a) + multiset{x};
    assert multiset(a + b) == multiset(a) + multiset(b);
  }

  lemma SplitAt<T>(t: seq<T>, k: nat)
    requires k < |t|
    ensures t == t[..k] + [t[k]] + t[k + 1..]
  {
  }

  lemma IndexOf<T>(t: seq<T>, x: T) returns (k: nat)
    requires x in multiset(t)
    ensures k < |t| && t[k] == x
  {
    k :| 0 <= k < |t| && t[k] == x;
  }

  /** Counts do not depend on the order of the elements. */
  lemma {:induction false} CountPermutation<T>(s: seq<T>, t: seq<T>, p: T -> bool)
    requires multiset(s) == multiset(t)
    ensures Count(s, p) == Count(t, p)
  {
    if s == [] {
      assert |t| == |multiset(t)| == 0;
    } else {
      var x := s[0];
      assert x in multiset(s);
      var k := IndexOf(t, x);
      var a, b := t[..k], t[k + 1..];
      SplitAt(t, k);
      MultisetMiddle(a, x, b);
      SplitAt(s, 0);
      MultisetMiddle([], x, s[1..]);
      assert [] + s[1..] == s[1..];
      CancelMultiset(multiset(s[1..]), multiset(a + b), x);
      CountPermutation(s[1..], a + b, p);
      CountMiddle(a, x, b, p);
    }
  }

  lemma CancelMultiset<T>(m: multiset<T>, n: multiset<T>, x: T)
    requires m + multiset{x} == n + multiset{x}
    ensures m == n
  {
    assert m == m + multiset{x} - multiset{x};
  }

  lemma {:induction false} CountConcat<T>(s: seq<T>, t: seq<T>, p: T -> bool)
    ensures Count(s + t, p) == Count(s, p) + Count(t, p)
  {
    if s == [] {
      assert s + t == t;
    } else {
      assert (s + t)[1..] == s[1..] + t;
      CountConcat(s[1..], t, p);
    }
  }

  /** Too few hits: some element fails the predicate. */
  lemma {:induction false} CountGap<T>(s: seq<T>, p: T -> bool) returns (i: nat)
    requires Count(s, p) < |s|
    ensures i < |s| && !p(s[i])
  {
    if !p(s[0]) {
      i := 0;
    } else {
      var j := CountGap(s[1..], p);
      i := j + 1;
    }
  }

  lemma SubsetSize<T>(a: set<T>, b: set<T>)
    requires a <= b
    ensures |a| <= |b|
  {
    assert b == a + (b - a);
  }

  /** The numbers below n. */
  function Numbers(n: nat): set<nat> {
    if n == 0 then {} else Numbers(n - 1) + {n - 1}
  }

  lemma {:induction false} NumbersSize(n: nat)
    ensures |Numbers(n)| == n && forall a: nat :: a in Numbers(n) <==> a < n
  {
    if n > 0 {
      NumbersSize(n - 1);
    }
  }
}
