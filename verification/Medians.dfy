/** save_median of lib_timing.c: what it publishes, and when that is a median of the samples. */
module Medians {
  import opened Counting
  import opened Arith
  import opened Results

  /** Two samples averaged, times and counts each for themselves. */
  function Average(hi: Value, lo: Value): Value {
    Value((hi.u + lo.u) / 2, (hi.n + lo.n) / 2)
  }

  /** What save_median publishes: total time and iteration count. */
  function Median(s: seq<Value>): Value {
    var i := |s| / 2;
    if s == [] then Value(0, 1)
    else if |s| % 2 == 1 then s[i]
    else Average(s[i - 1], s[i])
  }

  method SaveMedian(r: ResultSet) returns (u: nat, n: nat)
    requires r.N <= r.v.Length
    ensures Value(u, n) == Median(r.Samples())
  {
    var i := r.N / 2;
    if r.N == 0 {
      n := 1;
      u := 0;
    } else if r.N % 2 != 0 {
      n := r.v[i].n;
      u := r.v[i].u;
    } else {
      n := (r.v[i].n + r.v[i - 1].n) / 2;
      u := (r.v[i].u + r.v[i - 1].u) / 2;
    }
  }

  /** Without samples no time in one iteration is published, with an odd number the middle one; of two middle ones of equal count, the mean of their times. */
  lemma EqualCountsMean(s: seq<Value>)
    ensures s == [] ==> Median(s) == Value(0, 1)
    ensures |s| % 2 == 1 ==> Median(s) == s[|s| / 2]
    ensures s != [] && |s| % 2 == 0 && s[|s| / 2 - 1].n == s[|s| / 2].n ==>
              var hi, lo, m := s[|s| / 2 - 1], s[|s| / 2], Median(s);
              m.n == lo.n && 2 * m.u <= hi.u + lo.u <= 2 * m.u + 1
  {
  }

  /** At least half of the samples are no smaller than m, and at least half no larger. */
  ghost predicate IsMedian(m: Value, s: seq<Value>) {
    && 2 * Count(s, x => Ratio(x) >= Ratio(m)) >= |s|
    && 2 * Count(s, x => Ratio(x) <= Ratio(m)) >= |s|
  }

  // ---------- ratios in integers ----------

  lemma SameSign(d: real, p: real)
    requires p > 0.0
    ensures d * p >= 0.0 <==> d >= 0.0
  {
  }

  /** Fractions compare by cross-multiplication. */
  lemma CrossReal(a: real, p: real, b: real, q: real)
    requires p > 0.0 && q > 0.0
    ensures a / p >= b / q <==> a * q - b * p >= 0.0
  {
    var x, y := a / p, b / q;
    assert x * p == a && y * q == b;
    assert (x - y) * (p * q) == (x * p) * q - (y * q) * p;
    assert p * q > 0.0;
    SameSign(x - y, p * q);
  }

  lemma RatioOrder(a: Value, b: Value)
    requires a.n > 0 && b.n > 0
    ensures Ratio(a) >= Ratio(b) <==> Mul(a.u, b.n) >= Mul(b.u, a.n)
  {
    CrossReal(a.u as real, a.n as real, b.u as real, b.n as real);
    assert a.u as real * b.n as real == (a.u * b.n) as real;
    assert b.u as real * a.n as real == (b.u * a.n) as real;
  }

  // ---------- when the average of two samples lies between them ----------

  ghost predicate Between(hi: Value, lo: Value) {
    Ratio(lo) <= Ratio(Average(hi, lo)) <= Ratio(hi)
  }

  /** The larger count is an odd multiple of the smaller, which belongs to the smaller ratio. */
  predicate OddMultiple(n1: nat, n2: nat) {
    n2 > 0 && n1 % (2 * n2) == n2
  }

  /** In integers: the average is at least the lower ratio, and at most the higher one. */
  lemma BetweenInIntegers(hi: Value, lo: Value)
    requires hi.n > 0 && lo.n > 0
    ensures Between(hi, lo) <==>
            Mul((hi.u + lo.u) / 2, lo.n) >= Mul(lo.u, (hi.n + lo.n) / 2) &&
            Mul(hi.u, (hi.n + lo.n) / 2) >= Mul((hi.u + lo.u) / 2, hi.n)
  {
    hide Mul, Ratio;
    RatioOrder(Average(hi, lo), lo);
    RatioOrder(hi, Average(hi, lo));
  }

  lemma OddMultipleParts(n1: nat, n2: nat) returns (q: nat)
    requires OddMultiple(n1, n2)
    ensures n1 == Mul(2 * q + 1, n2) && (n1 + n2) / 2 == Mul(q + 1, n2)
  {
    q := n1 / (2 * n2);
    DivParts(n1, 2 * n2);
    assert n1 == q * (2 * n2) + n2;
    assert q * (2 * n2) == 2 * (q * n2);
    assert (2 * q + 1) * n2 == 2 * (q * n2) + n2;
    assert (q + 1) * n2 == q * n2 + n2;
  }

  /** Halving odd or even sums loses nothing that matters when the higher time is that many times the lower. */
  lemma HalvesOrdered(u1: nat, u2: nat, q: nat)
    requires u1 >= Mul(u2, 2 * q + 1)
    ensures (u1 + u2) / 2 >= Mul(u2, q + 1)
    ensures Mul((u1 + u2) / 2, 2 * q + 1) <= Mul(u1, q + 1)
  {
    var u := (u1 + u2) / 2;
    assert u2 * (2 * q + 1) == 2 * (u2 * q) + u2;
    assert u2 * (q + 1) == u2 * q + u2;
    var twice := 2 * u;
    assert twice <= u1 + u2;
    AtLeast2(twice, u1 + u2, 2 * q + 1);
    assert (u1 + u2) * (2 * q + 1) == u1 * (2 * q + 1) + u2 * (2 * q + 1);
    assert twice * (2 * q + 1) == 2 * (u * (2 * q + 1));
    assert u1 * (2 * q + 1) + u1 == 2 * (u1 * (q + 1));
  }

  lemma AtLeast2(a: nat, b: nat, c: nat)
    requires a <= b
    ensures a * c <= b * c
  {
    MulMono(a, b, c);
  }

  lemma OddMultipleBetween(hi: Value, lo: Value)
    requires hi.n > 0 && OddMultiple(hi.n, lo.n) && Ratio(hi) >= Ratio(lo)
    ensures Between(hi, lo)
  {
    hide Mul, Ratio, Between, OddMultiple;
    assert lo.n > 0 by { PositiveCount(hi.n, lo.n); }
    var q := OddMultipleParts(hi.n, lo.n);
    var u, m := (hi.u + lo.u) / 2, 2 * q + 1;
    RatioOrder(hi, lo);
    MulAssoc(lo.u, m, lo.n);
    Uncancel(hi.u, Mul(lo.u, m), lo.n);
    HalvesOrdered(hi.u, lo.u, q);
    BetweenInIntegers(hi, lo);
    MulAssoc(lo.u, q + 1, lo.n);
    MulMono(Mul(lo.u, q + 1), u, lo.n);
    MulAssoc(hi.u, q + 1, lo.n);
    MulAssoc(u, m, lo.n);
    MulMono(Mul(u, m), Mul(hi.u, q + 1), lo.n);
  }

  lemma PositiveCount(n1: nat, n2: nat)
    requires OddMultiple(n1, n2)
    ensures n2 > 0
  {
  }

  lemma Uncancel(a: nat, b: nat, c: nat)
    requires c > 0 && Mul(a, c) >= Mul(b, c)
    ensures a >= b
  {
    hide Mul;
    if a < b {
      MulLess(a, b, c);
    }
  }

  /** Times for which halving an odd sum of counts pushes the average above both. */
  lemma OddSumFails(n1: nat, n2: nat)
    requires n1 > 0 && n2 > 0 && (n1 + n2) % 2 == 1
    ensures Ratio(Value(2 * n1, n1)) >= Ratio(Value(2 * n2, n2)) && !Between(Value(2 * n1, n1), Value(2 * n2, n2))
  {
    hide Mul, Ratio;
    var half := (n1 + n2) / 2;
    RatioOrder(Value(2 * n1, n1), Value(2 * n2, n2));
    BetweenInIntegers(Value(2 * n1, n1), Value(2 * n2, n2));
    TwiceProduct(n1, 0, 2 * n1, n2);
    TwiceProduct(n2, 0, 2 * n2, n1);
    MulCommutes(n1, n2);
    MulSmall(n1);
    MulSmall(n2);
    TwiceProduct(n1, 0, 2 * n1, half);
    MulSmall(half);
    MulCommutes(n1, half);
    TwiceProduct(half, 0, n1 + n2 - 1, n1);
    MulPlus(n1 + n2 - 1, 1, n1);
  }

  /** Times for which halving an odd sum of times pushes the average below both: u1 is the least time above. */
  lemma OddTimesFail(n1: nat, n2: nat, u1: nat, u2: nat)
    requires n1 > 0 && n2 > 0 && (n1 + n2) % 2 == 0 && u1 > 0 && (u1 + u2) % 2 == 1
    requires Mul(u1, n2) >= Mul(u2, n1) > Mul(u1 - 1, n2)
    ensures Ratio(Value(u1, n1)) >= Ratio(Value(u2, n2)) && !Between(Value(u1, n1), Value(u2, n2))
  {
    hide Mul, Ratio;
    var u, half := (u1 + u2) / 2, (n1 + n2) / 2;
    RatioOrder(Value(u1, n1), Value(u2, n2));
    BetweenInIntegers(Value(u1, n1), Value(u2, n2));
    TwiceProduct(u, u1 - 1, u2, n2);
    TwiceProduct(half, n1, n2, u2);
    MulCommutes(u2, half);
    MulCommutes(u2, n1);
    MulCommutes(u2, n2);
  }

  lemma TwiceProduct(half: nat, a: nat, b: nat, c: nat)
    requires a + b == half + half
    ensures 2 * Mul(half, c) == Mul(a, c) + Mul(b, c)
  {
    hide Mul;
    MulPlus(half, half, c);
    MulPlus(a, b, c);
  }

  /** n1 is c-1 whole n2 and a rest of 1 to n2. */
  lemma CeilParts(n1: nat, n2: nat) returns (c: nat, s: nat)
    requires n1 > 0 && n2 > 0
    ensures c >= 1 && n1 == Mul(c - 1, n2) + s && 1 <= s <= n2
  {
    hide Mul;
    DivParts(n1 - 1, n2);
    c := (n1 - 1) / n2 + 1;
    s := (n1 - 1) % n2 + 1;
  }

  /** The first multiple of gap that reaches n2. */
  lemma FirstReaching(gap: nat, n2: nat) returns (u: nat)
    requires 0 < gap < n2
    ensures u >= 2 && Mul(u - 1, gap) < n2 <= Mul(u, gap)
  {
    hide Mul;
    DivParts(n2 - 1, gap);
    var d := (n2 - 1) / gap;
    u := d + 1;
    MulPlus(d, 1, gap);
    MulSmall(gap);
  }

  /** For every other pair of counts there are times, in this order, whose average is not between. */
  lemma OtherCountsFail(n1: nat, n2: nat) returns (u1: nat, u2: nat)
    requires n1 > 0 && n2 > 0 && !OddMultiple(n1, n2)
    ensures u1 > 0 && u2 > 0
    ensures Ratio(Value(u1, n1)) >= Ratio(Value(u2, n2)) && !Between(Value(u1, n1), Value(u2, n2))
  {
    hide Mul, Ratio, Between, OddMultiple;
    if (n1 + n2) % 2 == 1 {
      OddSumFails(n1, n2);
      u1, u2 := 2 * n1, 2 * n2;
    } else {
      u1, u2 := LeastTimeAbove(n1, n2);
      OddTimesFail(n1, n2, u1, u2);
    }
  }

  /** A time u2 for which the least time above it at the same rate makes an odd sum. */
  lemma LeastTimeAbove(n1: nat, n2: nat) returns (u1: nat, u2: nat)
    requires n1 > 0 && n2 > 0 && !OddMultiple(n1, n2)
    ensures u1 > 0 && u2 > 0 && (u1 + u2) % 2 == 1 && Mul(u1, n2) >= Mul(u2, n1) > Mul(u1 - 1, n2)
  {
    hide Mul, OddMultiple;
    var c, s := CeilParts(n1, n2);
    if c % 2 == 0 {
      u1, u2 := c, 1;
      CeilOrder(n1, n2, c, s);
    } else {
      if s == n2 {
        WholeIsOdd(n1, n2, c);
      }
      u2 := FirstReaching(n2 - s, n2);
      u1 := Mul(u2, c - 1) + (u2 - 1);
      SkippedOrder(n1, n2, c, s, u2);
      OddTotal(u2, c);
    }
  }

  lemma CeilOrder(n1: nat, n2: nat, c: nat, s: nat)
    requires c >= 1 && n1 == Mul(c - 1, n2) + s && 1 <= s <= n2
    ensures Mul(c, n2) >= Mul(1, n1) > Mul(c - 1, n2)
  {
    hide Mul;
    MulPlus(c - 1, 1, n2);
    MulSmall(n1);
    MulSmall(n2);
  }

  lemma WholeIsOdd(n1: nat, n2: nat, c: nat)
    requires n2 > 0 && c % 2 == 1 && n1 == Mul(c - 1, n2) + n2
    ensures OddMultiple(n1, n2)
  {
    var h := (c - 1) / 2;
    assert (c - 1) * n2 == h * (2 * n2) by {
      assert c - 1 == 2 * h;
    }
    DivUnique(n1, h, n2, 2 * n2);
  }

  lemma OddTotal(u: nat, c: nat)
    requires c % 2 == 1 && u >= 1
    ensures (Mul(u, c - 1) + (u - 1) + u) % 2 == 1
  {
    var h := (c - 1) / 2;
    assert u * (c - 1) == 2 * (u * h) by {
      assert c - 1 == 2 * h;
    }
  }

  lemma SkippedOrder(n1: nat, n2: nat, c: nat, s: nat, u: nat)
    requires c >= 1 && u >= 2 && n1 == Mul(c - 1, n2) + s && 1 <= s < n2
    requires Mul(u - 1, n2 - s) < n2 <= Mul(u, n2 - s)
    ensures var u1 := Mul(u, c - 1) + (u - 1);
            u1 > 0 && Mul(u1, n2) >= Mul(u, n1) > Mul(u1 - 1, n2)
  {
    var w := u * (c - 1);
    assert u * n1 == w * n2 + u * s by {
      assert u * ((c - 1) * n2 + s) == (u * (c - 1)) * n2 + u * s;
    }
    assert (w + (u - 1)) * n2 == w * n2 + u * n2 - n2;
    assert (w + (u - 1) - 1) * n2 == w * n2 + u * n2 - 2 * n2;
    assert u * (n2 - s) == u * n2 - u * s;
    assert (u - 1) * (n2 - s) == u * n2 - u * s - (n2 - s);
  }

  /**
   The published average of the two middle samples lies between them for all their times exactly when
   the count of the larger ratio is an odd multiple of the other one; equal counts are one case.
   */
  lemma AverageBetweenExactly(n1: nat, n2: nat)
    requires n1 > 0 && n2 > 0
    ensures (forall u1: nat, u2: nat :: u1 > 0 && u2 > 0 && Ratio(Value(u1, n1)) >= Ratio(Value(u2, n2)) ==>
                                          Between(Value(u1, n1), Value(u2, n2)))
       <==> OddMultiple(n1, n2)
  {
    hide Ratio, Between, OddMultiple;
    if OddMultiple(n1, n2) {
      forall u1: nat, u2: nat | u1 > 0 && u2 > 0 && Ratio(Value(u1, n1)) >= Ratio(Value(u2, n2))
        ensures Between(Value(u1, n1), Value(u2, n2))
      {
        OddMultipleBetween(Value(u1, n1), Value(u2, n2));
      }
    } else {
      var u1, u2 := OtherCountsFail(n1, n2);
    }
  }

  lemma EqualCounts(n: nat)
    requires n > 0
    ensures OddMultiple(n, n)
  {
    DivUnique(n, 0, n, 2 * n);
  }

  // ---------- medians ----------

  /** The middle samples have counts whose average is safe; a single middle sample always has. */
  predicate MiddlesAgree(s: seq<Value>) {
    s != [] && (|s| % 2 == 0 ==> OddMultiple(s[|s| / 2 - 1].n, s[|s| / 2].n))
  }

  /** The published value lies between the two middle samples, or is the middle one. */
  ghost predicate BetweenMiddles(m: Value, s: seq<Value>)
    requires s != []
  {
    Ratio(s[|s| / 2]) <= Ratio(m) <= Ratio(s[(|s| - 1) / 2])
  }

  lemma MedianBetweenMiddles(s: seq<Value>)
    requires s != [] && Descending(s) && Counted(s) && MiddlesAgree(s)
    ensures BetweenMiddles(Median(s), s)
  {
    if |s| % 2 == 0 {
      OddMultipleBetween(s[|s| / 2 - 1], s[|s| / 2]);
    }
  }

  lemma CountAllAbove(s: seq<Value>, k: nat, p: Value -> bool)
    requires k <= |s| && forall i :: 0 <= i < k ==> p(s[i])
    ensures Count(s, p) >= k
  {
    hide Count;
    assert s == s[..k] + s[k..];
    CountConcat(s[..k], s[k..], p);
    CountFull(s[..k], p);
  }

  lemma CountNoneBelow(s: seq<Value>, k: nat, p: Value -> bool)
    requires k <= |s| && forall i :: k <= i < |s| ==> !p(s[i])
    ensures Count(s, p) <= k
  {
    hide Count;
    assert s == s[..k] + s[k..];
    CountConcat(s[..k], s[k..], p);
    forall i | 0 <= i < |s| - k ensures !p(s[k..][i]) {
      assert s[k..][i] == s[k + i];
    }
    CountZero(s[k..], p);
  }

  lemma CountAllBelow(s: seq<Value>, k: nat, p: Value -> bool)
    requires k <= |s| && forall i :: k <= i < |s| ==> p(s[i])
    ensures Count(s, p) >= |s| - k
  {
    hide Count;
    assert s == s[..k] + s[k..];
    CountConcat(s[..k], s[k..], p);
    forall i | 0 <= i < |s| - k ensures p(s[k..][i]) {
      assert s[k..][i] == s[k + i];
    }
    CountFull(s[k..], p);
  }

  lemma CountNoneAbove(s: seq<Value>, k: nat, p: Value -> bool)
    requires k <= |s| && forall i :: 0 <= i < k ==> !p(s[i])
    ensures Count(s, p) <= |s| - k
  {
    hide Count;
    assert s == s[..k] + s[k..];
    CountConcat(s[..k], s[k..], p);
    CountZero(s[..k], p);
  }

  /** Half of the samples are no smaller than m exactly when the upper middle one is. */
  lemma HalfAbove(s: seq<Value>, m: Value)
    requires s != [] && Descending(s)
    ensures 2 * Count(s, x => Ratio(x) >= Ratio(m)) >= |s| <==> Ratio(m) <= Ratio(s[(|s| - 1) / 2])
  {
    hide Ratio;
    var p, h := (x: Value) => Ratio(x) >= Ratio(m), (|s| - 1) / 2;
    if p(s[h]) {
      CountAllAbove(s, h + 1, p);
    } else {
      CountNoneBelow(s, h, p);
    }
  }

  lemma HalfBelow(s: seq<Value>, m: Value)
    requires s != [] && Descending(s)
    ensures 2 * Count(s, x => Ratio(x) <= Ratio(m)) >= |s| <==> Ratio(s[|s| / 2]) <= Ratio(m)
  {
    hide Ratio;
    var p, h := (x: Value) => Ratio(x) <= Ratio(m), |s| / 2;
    if p(s[h]) {
      CountAllBelow(s, h, p);
    } else {
      CountNoneAbove(s, h + 1, p);
    }
  }

  /** A value is a median of the samples, however they are listed, exactly when it lies between the middle ones. */
  lemma MedianMeansBetween(m: Value, s: seq<Value>, all: seq<Value>)
    requires s != [] && Descending(s) && multiset(s) == multiset(all)
    ensures IsMedian(m, all) <==> BetweenMiddles(m, s)
  {
    hide Ratio;
    HalfAbove(s, m);
    HalfBelow(s, m);
    CountPermutation(s, all, x => Ratio(x) >= Ratio(m));
    CountPermutation(s, all, x => Ratio(x) <= Ratio(m));
    assert |multiset(s)| == |multiset(all)|;
  }

  /** The published value is a median of all samples whenever the counts in the middle agree. */
  lemma MedianIsMedian(s: seq<Value>, all: seq<Value>)
    requires Descending(s) && Counted(s) && MiddlesAgree(s) && multiset(s) == multiset(all)
    ensures IsMedian(Median(s), all)
  {
    MedianBetweenMiddles(s);
    MedianMeansBetween(Median(s), s, all);
  }
}
