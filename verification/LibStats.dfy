/** Weighted least squares: the function regression of lib_stats.c, over exact reals. */
module LibStats {
  import opened Options

  type Vector = seq<real>

  // ---------- inner products ----------

  /** A product under a name, so that proofs can hide it. */
  function Times(a: real, b: real): real {
    a * b
  }

  /** The sum of a[i] * b[i] for i below n. */
  function Dot(a: Vector, b: Vector, n: nat): real
    requires n <= |a| && n <= |b|
  {
    if n == 0 then 0.0 else Dot(a, b, n - 1) + Times(a[n - 1], b[n - 1])
  }

  function Plus(a: Vector, c: real, b: Vector): (s: Vector)
    requires |a| == |b|
    ensures |s| == |a|
  {
    seq(|a|, i requires 0 <= i < |a| => a[i] + Times(c, b[i]))
  }

  lemma {:induction false} DotCommutes(a: Vector, b: Vector, n: nat)
    requires n <= |a| == |b|
    ensures Dot(a, b, n) == Dot(b, a, n)
  {
    if n > 0 {
      DotCommutes(a, b, n - 1);
    }
  }

  lemma {:induction false} DotPlus(a: Vector, c: real, b: Vector, d: Vector, n: nat)
    requires n <= |a| == |b| == |d|
    ensures Dot(Plus(a, c, b), d, n) == Dot(a, d, n) + Times(c, Dot(b, d, n))
  {
    hide Times;
    if n > 0 {
      DotPlus(a, c, b, d, n - 1);
      Distribute(a[n - 1], c, b[n - 1], d[n - 1], Dot(b, d, n - 1));
    } else {
      Signs(c, 0.0);
    }
  }

  lemma Distribute(x: real, c: real, y: real, z: real, rest: real)
    ensures Times(x + Times(c, y), z) == Times(x, z) + Times(c, Times(y, z))
    ensures Times(c, rest + Times(y, z)) == Times(c, rest) + Times(c, Times(y, z))
  {
    assert (x + c * y) * z == x * z + c * (y * z);
  }

  lemma Signs(c: real, x: real)
    ensures Times(c, 0.0) == 0.0 && Times(1.0, x) == x && Times(-c, x) == -Times(c, x)
  {
  }

  lemma {:induction false} DotSquare(a: Vector, n: nat)
    requires n <= |a|
    ensures Dot(a, a, n) >= 0.0
    ensures Dot(a, a, n) == 0.0 <==> forall i :: 0 <= i < n ==> a[i] == 0.0
  {
    hide Times;
    if n > 0 {
      DotSquare(a, n - 1);
      Square(a[n - 1]);
    }
  }

  lemma Square(x: real)
    ensures Times(x, x) >= 0.0 && (Times(x, x) == 0.0 <==> x == 0.0)
  {
    if x > 0.0 {
      hide Times;
      Positive(x, x);
    } else if x < 0.0 {
      hide Times;
      Negate(x, x);
      Positive(-x, -x);
    } else {
      assert Times(0.0, 0.0) == 0.0;
    }
  }

  lemma Positive(x: real, y: real)
    requires x > 0.0 && y > 0.0
    ensures Times(x, y) > 0.0
  {
  }

  lemma Negate(x: real, y: real)
    ensures Times(-x, -y) == Times(x, y)
  {
  }

  // ---------- the data ----------

  /** Measurements (x, y) with standard deviations, or without. */
  datatype Data = Data(x: Vector, y: Vector, sig: Option<Vector>) {
    ghost predicate Valid() {
      && |x| == |y|
      && (sig.Some? ==> |sig.value| == |x| && forall i :: 0 <= i < |x| ==> sig.value[i] != 0.0)
    }

    /** sig ? sig[i] : 1.0 */
    function Sigma(i: nat): (s: real)
      requires Valid() && i < |x|
      ensures s != 0.0
    {
      if sig.Some? then sig.value[i] else 1.0
    }

    /** The columns of the problem, each row divided by its standard deviation. */
    function U(): (u: Vector)
      requires Valid()
      ensures |u| == |x|
    {
      seq(|x|, i requires 0 <= i < |x| => 1.0 / Sigma(i))
    }

    function V(): (v: Vector)
      requires Valid()
      ensures |v| == |x|
    {
      seq(|x|, i requires 0 <= i < |x| => x[i] / Sigma(i))
    }

    function Z(): (z: Vector)
      requires Valid()
      ensures |z| == |x|
    {
      seq(|x|, i requires 0 <= i < |x| => y[i] / Sigma(i))
    }

    /** How far measurement i lies from the line a + b x, in standard deviations. */
    function Merit(a: real, b: real, i: nat): real
      requires Valid() && i < |x|
    {
      (y[i] - (a + b * x[i])) / Sigma(i)
    }

    /** The merit function of the line a + b x over the first n measurements. */
    function Chi2(a: real, b: real, n: nat): real
      requires Valid() && n <= |x|
    {
      if n == 0 then 0.0 else Chi2(a, b, n - 1) + Merit(a, b, n - 1) * Merit(a, b, n - 1)
    }

    ghost predicate TwoPoints() {
      exists i, j :: 0 <= i < j < |x| && x[i] != x[j]
    }

    /** The derivatives of the merit function with respect to a and b are zero. */
    ghost predicate Normal(a: real, b: real)
      requires Valid()
    {
      Dot(U(), Residual(this, a, b), |x|) == 0.0 && Dot(V(), Residual(this, a, b), |x|) == 0.0
    }
  }

  function Residual(d: Data, a: real, b: real): (r: Vector)
    requires d.Valid()
    ensures |r| == |d.x|
  {
    Plus(Plus(d.Z(), -a, d.U()), -b, d.V())
  }

  /** Each measurement adds its squared distance from the line, in units of its variance, or as it is. */
  lemma MeritAdds(d: Data, a: real, b: real, n: nat)
    requires d.Valid() && n < |d.x|
    ensures d.Chi2(a, b, 0) == 0.0
    ensures var dist, more := d.y[n] - (a + b * d.x[n]), d.Chi2(a, b, n + 1) - d.Chi2(a, b, n);
            if d.sig.Some? then Times(more, Times(d.sig.value[n], d.sig.value[n])) == Times(dist, dist) else more == Times(dist, dist)
  {
    var dist, m, s := d.y[n] - (a + b * d.x[n]), d.Merit(a, b, n), d.Sigma(n);
    assert d.Chi2(a, b, n + 1) - d.Chi2(a, b, n) == m * m;
    MeritTimes(dist, s, m);
    assert d.sig.None? ==> m == dist / 1.0 == dist;
  }

  lemma MeritTimes(dist: real, s: real, m: real)
    requires s != 0.0 && m == dist / s
    ensures Times(m * m, Times(s, s)) == Times(dist, dist)
  {
    assert m * s == dist;
    assert (m * m) * (s * s) == (m * s) * (m * s);
  }

  lemma Quotient(p: real, s: real, q: real)
    requires s != 0.0 && q * s == p
    ensures p / s == q
  {
  }

  lemma MeritIsResidual(d: Data, a: real, b: real, i: nat)
    requires d.Valid() && i < |d.x|
    ensures d.Merit(a, b, i) == Residual(d, a, b)[i]
  {
    var s := d.Sigma(i);
    var u, v, z := d.U()[i], d.V()[i], d.Z()[i];
    assert Residual(d, a, b)[i] == z + -a * u + -b * v;
    RowTimes(u, v, z, d.x[i], d.y[i], a, b, s);
    Quotient(d.y[i] - (a + b * d.x[i]), s, z + -a * u + -b * v);
  }

  lemma RowTimes(u: real, v: real, z: real, x: real, y: real, a: real, b: real, s: real)
    requires u * s == 1.0 && v * s == x && z * s == y
    ensures (z + -a * u + -b * v) * s == y - (a + b * x)
  {
    assert (a * u) * s == a * (u * s);
    assert (b * v) * s == b * (v * s);
    assert (z + -a * u + -b * v) * s == z * s - (a * u) * s - (b * v) * s;
  }

  lemma {:induction false} Chi2IsSquare(d: Data, a: real, b: real, n: nat)
    requires d.Valid() && n <= |d.x|
    ensures d.Chi2(a, b, n) == Dot(Residual(d, a, b), Residual(d, a, b), n)
  {
    hide Residual, Data.Merit;
    if n > 0 {
      Chi2IsSquare(d, a, b, n - 1);
      MeritIsResidual(d, a, b, n - 1);
    }
  }

  // ---------- the best line ----------

  /** (r + p u + q v)^2 expanded, where r is orthogonal to u and v. */
  lemma Pythagoras(r: Vector, u: Vector, v: Vector, p: real, q: real)
    requires |r| == |u| == |v|
    requires Dot(u, r, |r|) == 0.0 && Dot(v, r, |r|) == 0.0
    ensures var n, w := |r|, Plus(Plus(Zero(|r|), p, u), q, v);
            Dot(Plus(r, 1.0, w), Plus(r, 1.0, w), n) == Dot(r, r, n) + Dot(w, w, n)
  {
    hide Dot, Plus, Times;
    var n := |r|;
    var w := Plus(Plus(Zero(n), p, u), q, v);
    var t := Plus(r, 1.0, w);
    DotPlus(Plus(Zero(n), p, u), q, v, r, n);
    DotPlus(Zero(n), p, u, r, n);
    DotZero(r, n);
    Signs(p, 0.0);
    Signs(q, 0.0);
    DotPlus(r, 1.0, w, t, n);
    DotCommutes(r, t, n);
    DotCommutes(w, t, n);
    DotPlus(r, 1.0, w, r, n);
    DotPlus(r, 1.0, w, w, n);
    DotCommutes(r, w, n);
    Signs(1.0, Dot(w, t, n));
    Signs(1.0, Dot(w, r, n));
    Signs(1.0, Dot(w, w, n));
  }

  function Zero(n: nat): (z: Vector)
    ensures |z| == n
  {
    seq(n, i => 0.0)
  }

  lemma {:induction false} DotZero(a: Vector, n: nat)
    requires n <= |a|
    ensures Dot(Zero(|a|), a, n) == 0.0
  {
    if n > 0 {
      DotZero(a, n - 1);
    }
  }

  /** The difference of two lines, in standard deviations. */
  function Gap(d: Data, p: real, q: real): (w: Vector)
    requires d.Valid()
    ensures |w| == |d.x|
  {
    Plus(Plus(Zero(|d.x|), p, d.U()), q, d.V())
  }

  lemma OtherLine(d: Data, a: real, b: real, a': real, b': real)
    requires d.Valid()
    ensures Residual(d, a', b') == Plus(Residual(d, a, b), 1.0, Gap(d, a - a', b - b'))
  {
    forall i | 0 <= i < |d.x|
      ensures Residual(d, a', b')[i] == Plus(Residual(d, a, b), 1.0, Gap(d, a - a', b - b'))[i]
    {
      Regrouped(d.Z()[i], d.U()[i], d.V()[i], a, b, a', b');
    }
  }

  lemma Regrouped(z: real, u: real, v: real, a: real, b: real, a': real, b': real)
    ensures z + -a' * u + -b' * v == (z + -a * u + -b * v) + 1.0 * ((0.0 + (a - a') * u) + (b - b') * v)
  {
    assert (a - a') * u == a * u - a' * u;
    assert (b - b') * v == b * v - b' * v;
  }

  /** Two lines that agree at two points are the same. */
  lemma GapZero(d: Data, p: real, q: real)
    requires d.Valid() && d.TwoPoints() && forall i :: 0 <= i < |d.x| ==> Gap(d, p, q)[i] == 0.0
    ensures p == 0.0 && q == 0.0
  {
    var i, j :| 0 <= i < j < |d.x| && d.x[i] != d.x[j];
    OnLine(d, p, q, i);
    OnLine(d, p, q, j);
    SameHeight(p, q, d.x[i], d.x[j]);
  }

  lemma SameHeight(p: real, q: real, x: real, x': real)
    requires p + q * x == 0.0 && p + q * x' == 0.0 && x != x'
    ensures p == 0.0 && q == 0.0
  {
    assert q * (x - x') == 0.0;
  }

  lemma OnLine(d: Data, p: real, q: real, i: nat)
    requires d.Valid() && i < |d.x| && Gap(d, p, q)[i] == 0.0
    ensures p + q * d.x[i] == 0.0
  {
    var s, u, v := d.Sigma(i), d.U()[i], d.V()[i];
    assert Gap(d, p, q)[i] == (0.0 + p * u) + q * v;
    assert u * s == 1.0 && v * s == d.x[i];
    assert (p * u + q * v) * s == p * (u * s) + q * (v * s);
  }

  /** A line that satisfies the normal equations is better than every other line. */
  lemma NormalIsBest(d: Data, a: real, b: real, a': real, b': real)
    requires d.Valid() && d.TwoPoints() && d.Normal(a, b)
    ensures d.Chi2(a, b, |d.x|) <= d.Chi2(a', b', |d.x|)
    ensures d.Chi2(a, b, |d.x|) == d.Chi2(a', b', |d.x|) <==> a == a' && b == b'
  {
    hide Dot, Plus, Residual, Data.Chi2, Data.U, Data.V, Data.Z, Data.TwoPoints;
    var n := |d.x|;
    var r, w := Residual(d, a, b), Gap(d, a - a', b - b');
    Chi2IsSquare(d, a, b, n);
    Chi2IsSquare(d, a', b', n);
    OtherLine(d, a, b, a', b');
    Pythagoras(r, d.U(), d.V(), a - a', b - b');
    DotSquare(w, n);
    if Dot(w, w, n) == 0.0 {
      GapZero(d, a - a', b - b');
    }
  }

  // ---------- what the loops compute ----------

  /** t of equation 15.2.15 of Numerical Recipes in C: the x column made orthogonal to the constant column. */
  function T(d: Data, m: real): (t: Vector)
    requires d.Valid()
    ensures |t| == |d.x|
  {
    Plus(d.V(), -m, d.U())
  }

  lemma TValue(d: Data, m: real, i: nat)
    requires d.Valid() && i < |d.x|
    ensures (d.x[i] - m) / d.Sigma(i) == T(d, m)[i]
  {
    var s, u, v := d.Sigma(i), d.U()[i], d.V()[i];
    assert u * s == 1.0 && v * s == d.x[i];
    assert (m * u) * s == m * (u * s);
    assert (v + -m * u) * s == v * s - (m * u) * s;
    Quotient(d.x[i] - m, s, v + -m * u);
  }

  lemma WeightValues(d: Data, i: nat)
    requires d.Valid() && i < |d.x|
    ensures var s, u, v, z := d.Sigma(i), d.U()[i], d.V()[i], d.Z()[i]; var weight := 1.0 / NonZeroSquare(s);
                                                                        weight == u * u && weight * d.x[i] == u * v && weight * d.y[i] == u * z
  {
    var s, u, v, z := d.Sigma(i), d.U()[i], d.V()[i], d.Z()[i];
    assert u * s == 1.0 && v * s == d.x[i] && z * s == d.y[i];
    UnitSquare(u, s);
    UnitTimes(u, s, v);
    UnitTimes(u, s, z);
  }

  /** s * s, which divides safely. */
  function NonZeroSquare(s: real): (q: real)
    requires s != 0.0
    ensures q == s * s && q > 0.0
  {
    Square(s);
    Times(s, s)
  }

  lemma UnitSquare(u: real, s: real)
    requires s != 0.0 && u * s == 1.0
    ensures 1.0 / NonZeroSquare(s) == u * u
  {
    assert (u * u) * (s * s) == (u * s) * (u * s);
    Quotient(1.0, NonZeroSquare(s), u * u);
  }

  lemma UnitTimes(u: real, s: real, v: real)
    requires u * s == 1.0
    ensures (u * u) * (v * s) == u * v
  {
    assert (u * u) * (v * s) == (u * s) * (u * v);
  }

  lemma DotStep(a: Vector, b: Vector, n: nat)
    requires n <= |a| == |b|
    ensures n == 0 ==> Dot(a, b, n) == 0.0
    ensures n > 0 ==> Dot(a, b, n) == Dot(a, b, n - 1) + a[n - 1] * b[n - 1]
  {
  }

  /** The three sums of equation 15.2.4. */
  method Sums(d: Data) returns (S: real, Sx: real, Sy: real)
    requires d.Valid()
    ensures S == Dot(d.U(), d.U(), |d.x|) && Sx == Dot(d.U(), d.V(), |d.x|) && Sy == Dot(d.U(), d.Z(), |d.x|)
  {
    hide Data.U, Data.V, Data.Z, Dot, Data.Sigma, NonZeroSquare;
    S, Sx, Sy := 0.0, 0.0, 0.0;
    DotStep(d.U(), d.U(), 0);
    DotStep(d.U(), d.V(), 0);
    DotStep(d.U(), d.Z(), 0);
    var i := 0;
    while i < |d.x|
      invariant i <= |d.x|
      invariant S == Dot(d.U(), d.U(), i) && Sx == Dot(d.U(), d.V(), i) && Sy == Dot(d.U(), d.Z(), i)
    {
      WeightValues(d, i);
      DotStep(d.U(), d.U(), i + 1);
      DotStep(d.U(), d.V(), i + 1);
      DotStep(d.U(), d.Z(), i + 1);
      var weight := 1.0 / NonZeroSquare(d.Sigma(i));
      S := S + weight;
      Sx := Sx + weight * d.x[i];
      Sy := Sy + weight * d.y[i];
      i := i + 1;
    }
  }

  /** The sums of equations 15.2.16 and 15.2.17. */
  method CentredSums(d: Data, m: real) returns (Stt: real, b: real)
    requires d.Valid()
    ensures Stt == Dot(T(d, m), T(d, m), |d.x|) && b == Dot(T(d, m), d.Z(), |d.x|)
  {
    hide T, Data.Z;
    Stt, b := 0.0, 0.0;
    var i := 0;
    while i < |d.x|
      invariant i <= |d.x|
      invariant Stt == Dot(T(d, m), T(d, m), i) && b == Dot(T(d, m), d.Z(), i)
    {
      TValue(d, m, i);
      var t := (d.x[i] - m) / d.Sigma(i);
      Stt := Stt + t * t;
      b := b + t * d.y[i] / d.Sigma(i);
      ZValue(d, t, i);
      i := i + 1;
    }
  }

  lemma ZValue(d: Data, t: real, i: nat)
    requires d.Valid() && i < |d.x|
    ensures t * d.y[i] / d.Sigma(i) == t * d.Z()[i]
  {
    var s, z := d.Sigma(i), d.Z()[i];
    assert z * s == d.y[i];
    assert (t * z) * s == t * (z * s);
    Quotient(t * d.y[i], s, t * z);
  }

  method MeritSum(d: Data, a: real, b: real) returns (chi2: real)
    requires d.Valid()
    ensures chi2 == d.Chi2(a, b, |d.x|)
  {
    chi2 := 0.0;
    var i := 0;
    while i < |d.x|
      invariant i <= |d.x| && chi2 == d.Chi2(a, b, i)
    {
      var merit := (d.y[i] - (a + b * d.x[i])) / d.Sigma(i);
      chi2 := chi2 + merit * merit;
      i := i + 1;
    }
  }

  // ---------- no division by zero ----------

  lemma WeightPositive(d: Data)
    requires d.Valid() && |d.x| > 0
    ensures Dot(d.U(), d.U(), |d.x|) > 0.0
  {
    DotSquare(d.U(), |d.x|);
    assert d.U()[0] * d.Sigma(0) == 1.0;
  }

  lemma SpreadPositive(d: Data, m: real)
    requires d.Valid() && d.TwoPoints()
    ensures Dot(T(d, m), T(d, m), |d.x|) > 0.0
  {
    var t := T(d, m);
    DotSquare(t, |d.x|);
    if forall i :: 0 <= i < |d.x| ==> t[i] == 0.0 {
      var i, j :| 0 <= i < j < |d.x| && d.x[i] != d.x[j];
      AtMean(d, m, i);
      AtMean(d, m, j);
      assert false;
    }
  }

  lemma AtMean(d: Data, m: real, i: nat)
    requires d.Valid() && i < |d.x| && T(d, m)[i] == 0.0
    ensures d.x[i] == m
  {
    TValue(d, m, i);
    assert ((d.x[i] - m) / d.Sigma(i)) * d.Sigma(i) == d.x[i] - m;
  }

  // ---------- the coefficients solve the normal equations ----------

  lemma Orthogonal(u: Vector, v: Vector, m: real)
    requires |u| == |v| && Times(m, Dot(u, u, |u|)) == Dot(u, v, |u|)
    ensures Dot(Plus(v, -m, u), u, |u|) == 0.0
  {
    hide Dot, Plus, Times;
    DotPlus(v, -m, u, u, |u|);
    DotCommutes(u, v, |u|);
    Signs(m, Dot(u, u, |u|));
  }

  /** m is the weighted mean of x. */
  ghost predicate Mean(d: Data, m: real)
    requires d.Valid()
  {
    Times(m, Dot(d.U(), d.U(), |d.x|)) == Dot(d.U(), d.V(), |d.x|)
  }

  /** The coefficients as regression computes them, without division. */
  ghost predicate Solution(d: Data, m: real, a: real, b: real)
    requires d.Valid()
  {
    var n, t := |d.x|, T(d, m);
    && Times(b, Dot(t, t, n)) == Dot(t, d.Z(), n)
    && Times(a, Dot(d.U(), d.U(), n)) == Dot(d.U(), d.Z(), n) - Times(b, Dot(d.U(), d.V(), n))
  }

  lemma TOrthogonal(d: Data, m: real)
    requires d.Valid() && Mean(d, m)
    ensures Dot(T(d, m), d.U(), |d.x|) == 0.0 && Dot(d.U(), T(d, m), |d.x|) == 0.0
    ensures Dot(d.V(), T(d, m), |d.x|) == Dot(T(d, m), T(d, m), |d.x|)
  {
    hide Dot, Plus, Times, Data.U, Data.V;
    var n, t, u, v := |d.x|, T(d, m), d.U(), d.V();
    Orthogonal(u, v, m);
    DotCommutes(t, u, n);
    DotPlus(v, -m, u, t, n);
    Signs(-m, 0.0);
  }

  lemma ResidualDot(d: Data, a: real, b: real, w: Vector)
    requires d.Valid() && |w| == |d.x|
    ensures Dot(Residual(d, a, b), w, |w|) == Dot(d.Z(), w, |w|) - Times(a, Dot(d.U(), w, |w|)) - Times(b, Dot(d.V(), w, |w|))
  {
    hide Dot, Plus, Times, Data.U, Data.V, Data.Z;
    DotPlus(Plus(d.Z(), -a, d.U()), -b, d.V(), w, |w|);
    DotPlus(d.Z(), -a, d.U(), w, |w|);
    Signs(a, Dot(d.U(), w, |w|));
    Signs(b, Dot(d.V(), w, |w|));
  }

  /** The lines orthogonal to both columns are the ones regression computes. */
  lemma SolvesNormal(d: Data, m: real, a: real, b: real)
    requires d.Valid() && Mean(d, m)
    ensures d.Normal(a, b) <==> Solution(d, m, a, b)
  {
    var n, t, u, v, z := |d.x|, T(d, m), d.U(), d.V(), d.Z();
    var r := Residual(d, a, b);
    TOrthogonal(d, m);
    hide Dot, Times, Mean, Data.U, Data.V, Data.Z, Residual;
    ResidualDot(d, a, b, u);
    ResidualDot(d, a, b, t);
    DotCommutes(r, t, n);
    DotCommutes(r, u, n);
    DotCommutes(z, u, n);
    DotCommutes(v, u, n);
    DotCommutes(z, t, n);
    Signs(a, 0.0);
    DotPlus(v, -m, u, r, n);
    Signs(-m, 0.0);
  }

  // ---------- the errors ----------

  /** For all measured values, the line that solves the normal equations has these inner products as coefficients. */
  ghost predicate Gains(x: Vector, sig: Option<Vector>, ga: Vector, gb: Vector)
    requires Data(x, x, sig).Valid() && |ga| == |gb| == |x|
  {
    forall y: Vector, a: real, b: real :: |y| == |x| && Data(x, y, sig).Normal(a, b) ==>
                                            && a == Dot(ga, Data(x, y, sig).Z(), |x|)
                                            && b == Dot(gb, Data(x, y, sig).Z(), |x|)
  }

  function Scaled(c: real, a: Vector): (s: Vector)
    ensures |s| == |a|
  {
    Plus(Zero(|a|), c, a)
  }

  lemma DotScaled(c: real, a: Vector, b: Vector)
    requires |a| == |b|
    ensures Dot(Scaled(c, a), b, |a|) == Times(c, Dot(a, b, |a|)) && Dot(b, Scaled(c, a), |a|) == Times(c, Dot(a, b, |a|))
  {
    hide Dot, Plus, Times;
    DotPlus(Zero(|a|), c, a, b, |a|);
    DotZero(b, |a|);
    DotCommutes(b, Scaled(c, a), |a|);
  }

  function GainB(d: Data, m: real, Stt: real): (g: Vector)
    requires d.Valid() && Stt > 0.0
    ensures |g| == |d.x|
  {
    Scaled(1.0 / Stt, T(d, m))
  }

  function GainA(d: Data, S: real, m: real, Stt: real): (g: Vector)
    requires d.Valid() && Stt > 0.0 && S > 0.0
    ensures |g| == |d.x|
  {
    Plus(Scaled(1.0 / S, d.U()), -m, GainB(d, m, Stt))
  }

  lemma ErrorOfB(d: Data, m: real, Stt: real)
    requires d.Valid() && Stt > 0.0 && Stt == Dot(T(d, m), T(d, m), |d.x|)
    ensures var g := GainB(d, m, Stt); Dot(g, g, |d.x|) == 1.0 / Stt
  {
    hide Dot, Times, Scaled, T;
    var t := T(d, m);
    DotScaled(1.0 / Stt, t, GainB(d, m, Stt));
    DotScaled(1.0 / Stt, t, t);
    Inverse(Stt);
  }

  lemma ErrorOfA(d: Data, S: real, Sx: real, m: real, Stt: real)
    requires d.Valid() && S > 0.0 && Stt > 0.0 && Mean(d, m)
    requires S == Dot(d.U(), d.U(), |d.x|) && Sx == Dot(d.U(), d.V(), |d.x|) && Stt == Dot(T(d, m), T(d, m), |d.x|)
    ensures var g := GainA(d, S, m, Stt); Dot(g, g, |d.x|) == (1.0 + (Sx * Sx) / Product(S, Stt)) / S
  {
    TOrthogonal(d, m);
    ErrorOfB(d, m, Stt);
    assert m * S == Sx;
    VarianceOfA(S, Sx, m, Stt);
    hide Dot, Plus, Times, Data.U, Data.V, T, Scaled, Product, Mean;
    var n, t, u, gb, ga := |d.x|, T(d, m), d.U(), GainB(d, m, Stt), GainA(d, S, m, Stt);
    var su := Scaled(1.0 / S, u);
    DotScaled(1.0 / Stt, t, u);
    DotScaled(1.0 / S, u, u);
    DotScaled(1.0 / S, u, ga);
    DotScaled(1.0 / S, u, gb);
    Signs(1.0 / Stt, 0.0);
    Signs(1.0 / S, 0.0);
    Signs(m, 0.0);
    Signs(-m, 0.0);
    DotPlus(su, -m, gb, ga, n);
    DotPlus(su, -m, gb, u, n);
    DotPlus(su, -m, gb, gb, n);
    DotCommutes(ga, u, n);
    DotCommutes(ga, gb, n);
    DotCommutes(u, gb, n);
    Inverse(S);
  }

  /** The gains give the error formulas 15.2.19 and 15.2.20. */
  lemma ErrorFormulas(d: Data, S: real, Sx: real, m: real, Stt: real) returns (ga: Vector, gb: Vector)
    requires d.Valid() && S > 0.0 && Stt > 0.0 && Mean(d, m)
    requires S == Dot(d.U(), d.U(), |d.x|) && Sx == Dot(d.U(), d.V(), |d.x|) && Stt == Dot(T(d, m), T(d, m), |d.x|)
    ensures |ga| == |gb| == |d.x| && Gains(d.x, d.sig, ga, gb)
    ensures Dot(gb, gb, |d.x|) == 1.0 / Stt
    ensures Dot(ga, ga, |d.x|) == (1.0 + (Sx * Sx) / Product(S, Stt)) / S
  {
    hide Dot, Times, Data.U, Data.V, Data.Z, T, GainA, GainB, Data.Normal, Product, Mean;
    ga, gb := GainA(d, S, m, Stt), GainB(d, m, Stt);
    ErrorOfA(d, S, Sx, m, Stt);
    ErrorOfB(d, m, Stt);
    forall y: Vector, a: real, b: real | |y| == |d.x| && Data(d.x, y, d.sig).Normal(a, b)
      ensures a == Dot(ga, Data(d.x, y, d.sig).Z(), |d.x|) && b == Dot(gb, Data(d.x, y, d.sig).Z(), |d.x|)
    {
      GainsAt(d, Data(d.x, y, d.sig), S, m, Stt, a, b);
    }
  }

  /** s * t, which divides safely. */
  function Product(s: real, t: real): (q: real)
    requires s > 0.0 && t > 0.0
    ensures q == s * t && q > 0.0
  {
    Positive(s, t);
    Times(s, t)
  }

  lemma Inverse(s: real)
    requires s != 0.0
    ensures Times(1.0 / s, s) == 1.0 && Times(1.0 / s, Times(1.0 / s, s)) == 1.0 / s
  {
  }

  lemma VarianceOfA(S: real, Sx: real, m: real, Stt: real)
    requires S > 0.0 && Stt > 0.0 && m * S == Sx
    ensures 1.0 / S + Times(-m, Times(-m, 1.0 / Stt)) == (1.0 + (Sx * Sx) / Product(S, Stt)) / S
  {
    var i, j := 1.0 / S, 1.0 / Stt;
    assert i * S == 1.0 && j * Stt == 1.0;
    assert (Sx * Sx) / Product(S, Stt) == m * m * S * j by {
      assert (m * m * S * j) * (S * Stt) == (m * S) * (m * S) * (j * Stt);
      Quotient(Sx * Sx, Product(S, Stt), m * m * S * j);
    }
    assert -m * (-m * j) == m * m * j;
    assert (i + m * m * j) * S == 1.0 + m * m * S * j;
    Quotient(1.0 + m * m * S * j, S, i + m * m * j);
  }

  lemma GainsAt(d: Data, e: Data, S: real, m: real, Stt: real, a: real, b: real)
    requires d.Valid() && e.Valid() && e.x == d.x && e.sig == d.sig && S > 0.0 && Stt > 0.0 && Mean(d, m)
    requires S == Dot(d.U(), d.U(), |d.x|) && Stt == Dot(T(d, m), T(d, m), |d.x|) && e.Normal(a, b)
    ensures a == Dot(GainA(d, S, m, Stt), e.Z(), |d.x|) && b == Dot(GainB(d, m, Stt), e.Z(), |d.x|)
  {
    SameColumns(d, e, m);
    hide Dot, Plus, Times, Data.U, Data.V, Data.Z, T, Scaled, Data.Normal;
    var n, t, u, z, gb := |d.x|, T(d, m), d.U(), e.Z(), GainB(d, m, Stt);
    SolvesNormal(e, m, a, b);
    DotScaled(1.0 / Stt, t, z);
    Solved(b, Stt, Dot(t, z, n));
    DotPlus(Scaled(1.0 / S, u), -m, gb, z, n);
    DotScaled(1.0 / S, u, z);
    SolvedA(a, b, m, S, Dot(u, d.V(), n), Dot(u, z, n));
  }

  lemma SameColumns(d: Data, e: Data, m: real)
    requires d.Valid() && e.Valid() && e.x == d.x && e.sig == d.sig
    ensures d.U() == e.U() && d.V() == e.V() && T(d, m) == T(e, m)
  {
    assert forall i :: 0 <= i < |d.x| ==> d.Sigma(i) == e.Sigma(i);
  }

  lemma Solved(b: real, s: real, p: real)
    requires s != 0.0 && Times(b, s) == p
    ensures Times(1.0 / s, p) == b
  {
    assert 1.0 / s * (b * s) == b * (1.0 / s * s);
  }

  lemma SolvedA(a: real, b: real, m: real, S: real, Sx: real, Sy: real)
    requires S != 0.0 && Times(m, S) == Sx && Times(a, S) == Sy - Times(b, Sx)
    ensures Times(1.0 / S, Sy) + Times(-m, b) == a
  {
    assert b * (m * S) == (b * m) * S;
    assert (a + b * m) * S == Sy;
    Solved(a + b * m, S, Sy);
  }

  // ---------- regression ----------

  /** The variances are taken as given, or estimated from the scatter when there are none. */
  function ErrorScale(d: Data, chi2: real): real
    requires d.Valid() && (d.sig.None? ==> |d.x| != 2)
  {
    if d.sig.Some? then 1.0 else chi2 / (|d.x| as real - 2.0)
  }

  /** The squared errors of a and b that regression reports; without variances two points leave none. */
  ghost predicate Errors(d: Data, chi2: real, errors: Option<(real, real)>)
    requires d.Valid()
  {
    if d.sig.None? && |d.x| == 2 then errors == None
    else
      var scale := if d.sig.Some? then 1.0 else chi2 / (|d.x| as real - 2.0);
      exists ga: Vector, gb: Vector :: Reported(d, ga, gb, scale, errors)
  }

  ghost predicate Reported(d: Data, ga: Vector, gb: Vector, scale: real, errors: Option<(real, real)>)
    requires d.Valid()
  {
    && |ga| == |gb| == |d.x| && Gains(d.x, d.sig, ga, gb)
    && errors == Some((Times(Dot(ga, ga, |d.x|), scale), Times(Dot(gb, gb, |d.x|), scale)))
  }

  /** The line closest to the measurements; the errors are the squares of sig_a and sig_b. */
  method Regression(d: Data) returns (a: real, b: real, errors: Option<(real, real)>, chi2: real)
    requires d.Valid() && d.TwoPoints()
    ensures d.Normal(a, b) && chi2 == d.Chi2(a, b, |d.x|)
    ensures forall a', b' :: chi2 <= d.Chi2(a', b', |d.x|) && (chi2 == d.Chi2(a', b', |d.x|) <==> a == a' && b == b')
    ensures Errors(d, chi2, errors)
  {
    hide Dot, Data.U, Data.V, Data.Z, T, Data.Chi2, Data.Normal, Gains, Product, ErrorScale, Errors;
    var n := |d.x|;
    var S, Sx, Sy := Sums(d);
    WeightPositive(d);
    var Sx_S := Sx / S;
    var Stt, t := CentredSums(d, Sx_S);
    SpreadPositive(d, Sx_S);
    b := t / Stt;
    a := (Sy - b * Sx) / S;
    Divided(Sx, S);
    Divided(t, Stt);
    Divided(Sy - b * Sx, S);
    assert Solution(d, Sx_S, a, b) by { assert Times(b, Sx) == b * Sx; }
    SolvesNormal(d, Sx_S, a, b);
    var varA := (1.0 + (Sx * Sx) / Product(S, Stt)) / S;
    var varB := 1.0 / Stt;
    ghost var ga, gb := ErrorFormulas(d, S, Sx, Sx_S, Stt);
    chi2 := MeritSum(d, a, b);
    errors := ScaleErrors(d, chi2, varA, varB);
    ErrorsHold(d, chi2, errors, ga, gb);
    forall a', b' ensures chi2 <= d.Chi2(a', b', n) && (chi2 == d.Chi2(a', b', n) <==> a == a' && b == b') {
      NormalIsBest(d, a, b, a', b');
    }
  }

  /** The last lines of regression. */
  method ScaleErrors(d: Data, chi2: real, varA: real, varB: real) returns (errors: Option<(real, real)>)
    requires d.Valid()
    ensures if d.sig.None? && |d.x| == 2 then errors == None
            else errors == Some((Times(varA, ErrorScale(d, chi2)), Times(varB, ErrorScale(d, chi2))))
  {
    hide Times;
    if d.sig.Some? {
      UnitScale(varA);
      UnitScale(varB);
      errors := Some((varA, varB));
    } else if |d.x| == 2 {
      errors := None;
    } else {
      var scale := chi2 / (|d.x| as real - 2.0);
      errors := Some((Times(varA, scale), Times(varB, scale)));
    }
  }

  lemma UnitScale(x: real)
    ensures Times(x, 1.0) == x
  {
  }

  lemma ErrorsHold(d: Data, chi2: real, errors: Option<(real, real)>, ga: Vector, gb: Vector)
    requires d.Valid() && |ga| == |gb| == |d.x| && Gains(d.x, d.sig, ga, gb)
    requires if d.sig.None? && |d.x| == 2 then errors == None
             else errors == Some((Times(Dot(ga, ga, |d.x|), ErrorScale(d, chi2)), Times(Dot(gb, gb, |d.x|), ErrorScale(d, chi2))))
    ensures Errors(d, chi2, errors)
  {
    hide Dot, Gains, Times;
    if d.sig.Some? || |d.x| != 2 {
      assert Reported(d, ga, gb, ErrorScale(d, chi2), errors);
    }
  }

  lemma Divided(p: real, s: real)
    requires s != 0.0
    ensures Times(p / s, s) == p
  {
  }
}
