/** Products, multiples and remainders, as named functions whose bodies proofs elsewhere hide. */
module Arith {

  function Mul(a: nat, b: nat): nat {
    a * b
  }

  /** x is a nonnegative multiple of unit. */
  predicate Multiple(x: int, unit: nat) {
    unit > 0 && x >= 0 && x % unit == 0
  }

  lemma AtLeast(x: int, p: int)
    requires x >= 1 && p >= 0
    ensures x * p >= p
  {
    assert (x - 1) * p >= 0;
  }

  /** Quotient and remainder are unique. */
  lemma DivUnique(i: nat, q: nat, r: nat, p: nat)
    requires p > 0 && i == q * p + r && r < p
    ensures i / p == q && i % p == r
  {
    var d, m := i / p, i % p;
    assert i == d * p + m;
    assert (d - q) * p == d * p - q * p == r - m;
    assert (q - d) * p == q * p - d * p == m - r;
    if d > q {
      AtLeast(d - q, p);
    } else if d < q {
      AtLeast(q - d, p);
    }
  }

  lemma MulMultiple(q: nat, unit: nat)
    requires unit > 0
    ensures Multiple(Mul(q, unit), unit) && Mul(q, unit) / unit == q
  {
    DivUnique(q * unit, q, 0, unit);
  }

  lemma MultipleQuotient(x: int, unit: nat) returns (q: nat)
    requires Multiple(x, unit)
    ensures x == Mul(q, unit) && q == x / unit
  {
    q := x / unit;
  }

  lemma MulLess(a: nat, b: nat, unit: nat)
    requires a < b
    ensures Mul(a, unit) + unit <= Mul(b, unit)
  {
    AtLeast(b - a, unit);
    assert b * unit == a * unit + (b - a) * unit;
  }

  lemma MulMono(a: nat, b: nat, unit: nat)
    requires a <= b
    ensures Mul(a, unit) <= Mul(b, unit)
  {
    if a < b {
      MulLess(a, b, unit);
    }
  }

  lemma MulInjective(a: nat, b: nat, unit: nat)
    requires unit > 0 && Mul(a, unit) == Mul(b, unit)
    ensures a == b
  {
    if a < b {
      MulLess(a, b, unit);
    } else if b < a {
      MulLess(b, a, unit);
    }
  }

  lemma MulAssoc(a: nat, b: nat, c: nat)
    ensures Mul(Mul(a, b), c) == Mul(a, Mul(b, c))
  {
  }

  lemma MulSmall(unit: nat)
    ensures Mul(0, unit) == 0 && Mul(1, unit) == unit
  {
  }

  lemma MulPlus(a: nat, b: nat, unit: nat)
    ensures Mul(a + b, unit) == Mul(a, unit) + Mul(b, unit)
  {
  }

  lemma MultipleSum(a: int, b: int, unit: nat)
    requires Multiple(a, unit) && Multiple(b, unit)
    ensures Multiple(a + b, unit)
  {
    var x, y := a / unit, b / unit;
    assert a + b == (x + y) * unit;
    DivUnique(a + b, x + y, 0, unit);
  }

  lemma MultipleDifference(a: int, b: int, unit: nat)
    requires Multiple(a, unit) && Multiple(b, unit) && b <= a
    ensures Multiple(a - b, unit)
  {
    var x, y := a / unit, b / unit;
    assert (x - y) * unit == a - b;
    assert (y - x) * unit == b - a;
    if x < y {
      AtLeast(y - x, unit);
    }
    DivUnique(a - b, x - y, 0, unit);
  }

  lemma MultipleTransitive(a: int, big: nat, unit: nat)
    requires Multiple(a, big) && Multiple(big, unit)
    ensures Multiple(a, unit)
  {
    var q, r := a / big, big / unit;
    assert a == q * big && big == r * unit;
    assert a == (q * r) * unit;
    DivUnique(a, q * r, 0, unit);
  }

  /** Base and offset below the unit are unique. */
  lemma AlignedSplit(p: int, o: int, p': int, o': int, unit: nat)
    requires Multiple(p, unit) && Multiple(p', unit) && 0 <= o < unit && 0 <= o' < unit && p + o == p' + o'
    ensures p == p' && o == o'
  {
    DivUnique(p + o, p / unit, o, unit);
    DivUnique(p' + o', p' / unit, o', unit);
  }

  lemma SplitOffset(off: nat, unit: nat) returns (l: nat, w: nat)
    requires unit > 0
    ensures off == l + w && Multiple(l, unit) && w < unit
  {
    var q := off / unit;
    l, w := q * unit, off % unit;
    DivUnique(l, q, 0, unit);
  }

  lemma MultipleGap(a: int, b: int, unit: nat)
    requires Multiple(a, unit) && Multiple(b, unit) && a < b
    ensures a + unit <= b
  {
    hide Mul, Multiple;
    var x := MultipleQuotient(a, unit);
    var y := MultipleQuotient(b, unit);
    if y <= x {
      MulMono(y, x, unit);
    } else {
      MulLess(x, y, unit);
    }
  }

  lemma DivParts(x: nat, unit: nat)
    requires unit > 0
    ensures x == Mul(x / unit, unit) + x % unit && x % unit < unit
  {
  }

  /** A positive quotient means at least one unit. */
  lemma QuotientPositive(x: nat, unit: nat)
    requires unit > 0
    ensures x / unit >= 1 <==> x >= unit
  {
    hide Mul;
    DivParts(x, unit);
    MulSmall(unit);
    if x / unit >= 1 {
      MulMono(1, x / unit, unit);
    }
  }

  /** Quotient of q whole units and a rest. */
  lemma QuotientOf(q: nat, r: nat, unit: nat)
    requires unit > 0
    ensures (Mul(q, unit) + r) / unit == q + r / unit
  {
    hide Mul;
    DivParts(r, unit);
    MulPlus(q, r / unit, unit);
    DivMul(q + r / unit, r % unit, unit);
  }

  lemma DivMul(q: nat, r: nat, unit: nat)
    requires r < unit
    ensures (Mul(q, unit) + r) / unit == q
  {
    DivUnique(q * unit + r, q, r, unit);
  }

  lemma MulCommutes(a: nat, b: nat)
    ensures Mul(a, b) == Mul(b, a)
  {
  }

  lemma SmallMod(v: nat, n: nat)
    requires v < n
    ensures v % n == v
  {
    DivUnique(v, 0, v, n);
  }

  lemma AddedMod(k: nat, a: nat, n: nat)
    requires n > 0
    ensures (k + a % n) % n == (k + a) % n
  {
    hide Mul;
    var q, r := a / n, a % n;
    DivParts(a, n);
    DivParts(k + r, n);
    MulPlus(q, (k + r) / n, n);
    DivUnique(k + a, q + (k + r) / n, (k + r) % n, n);
  }

  /** Going d < n further than a wraps around at most once. */
  lemma Turn(a: nat, d: nat, n: nat)
    requires d < n
    ensures (a + d) % n == if a % n + d < n then a % n + d else a % n + d - n
  {
    hide Mul;
    DivParts(a, n);
    var q, r := a / n, a % n;
    if r + d < n {
      DivUnique(a + d, q, r + d, n);
    } else {
      MulPlus(q, 1, n);
      MulSmall(n);
      DivUnique(a + d, q + 1, r + d - n, n);
    }
  }
}
