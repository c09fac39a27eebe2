/** Bit reversal, which orders words in a line, lines in a page and processes over processors. */
module BitReversal {
  import opened Arith

  function Pow2(k: nat): (p: nat)
    ensures p > 0
  {
    if k == 0 then 1 else 2 * Pow2(k - 1)
  }

  /** The value of a bit at place k. */
  function At(bit: nat, k: nat): nat {
    if bit == 1 then Pow2(k) else 0
  }

  /** The lowest bits bits of i in reverse order. */
  function Rev(bits: nat, i: nat): (r: nat)
    ensures r < Pow2(bits)
  {
    if bits == 0 then 0 else At(i % 2, bits - 1) + Rev(bits - 1, i / 2)
  }

  lemma {:induction false} Pow2Sum(a: nat, b: nat)
    ensures Pow2(a + b) == Mul(Pow2(a), Pow2(b))
  {
    hide Mul;
    if a > 0 {
      Pow2Sum(a - 1, b);
      MulCommutes(Pow2(a), Pow2(b));
      MulCommutes(Pow2(a - 1), Pow2(b));
      MulDouble(Pow2(b), Pow2(a - 1));
    } else {
      MulSmall(Pow2(b));
    }
  }

  lemma {:induction false} Pow2Mono(a: nat, b: nat)
    requires a <= b
    ensures Pow2(a) <= Pow2(b)
    ensures a < b ==> 2 * Pow2(a) <= Pow2(b)
  {
    if a < b {
      Pow2Mono(a, b - 1);
    }
  }

  lemma HalveSum(a: nat, i: nat)
    ensures (2 * a + i) % 2 == i % 2 && (2 * a + i) / 2 == a + i / 2
  {
  }

  lemma AtDouble(bit: nat, k: nat)
    ensures At(bit, k + 1) == 2 * At(bit, k)
  {
  }

  lemma RevStep(bits: nat, i: nat)
    ensures Rev(bits + 1, i) == At(i % 2, bits) + Rev(bits, i / 2)
  {
  }

  /** Reversal seen from the top bit. */
  lemma {:induction false} RevTop(bits: nat, i: nat, hi: nat)
    requires i < Pow2(bits) && hi < 2
    ensures Rev(bits + 1, At(hi, bits) + i) == 2 * Rev(bits, i) + hi
  {
    hide At, Rev;
    if bits > 0 {
      AtDouble(hi, bits - 1);
      HalveSum(At(hi, bits - 1), i);
      RevTop(bits - 1, i / 2, hi);
      RevStep(bits, At(hi, bits) + i);
      RevStep(bits - 1, i);
      AtDouble(i % 2, bits - 1);
    } else {
      AtZero(hi);
      RevStep(0, hi);
      AtZero(hi % 2);
      NoBits(0);
      NoBits(hi / 2);
    }
  }

  lemma NoBits(i: nat)
    ensures Rev(0, i) == 0
  {
  }

  lemma AtZero(bit: nat)
    requires bit < 2
    ensures At(bit, 0) == bit
  {
  }

  lemma {:induction false} RevRev(bits: nat, i: nat)
    requires i < Pow2(bits)
    ensures Rev(bits, Rev(bits, i)) == i
  {
    if bits > 0 {
      RevTop(bits - 1, Rev(bits - 1, i / 2), i % 2);
      RevRev(bits - 1, i / 2);
    }
  }

  lemma RevInjective(bits: nat, i: nat, j: nat)
    requires i < Pow2(bits) && j < Pow2(bits) && Rev(bits, i) == Rev(bits, j)
    ensures i == j
  {
    RevRev(bits, i);
    RevRev(bits, j);
  }

  lemma {:induction false} RevZero(bits: nat)
    ensures Rev(bits, 0) == 0
  {
    if bits > 0 {
      RevZero(bits - 1);
    }
  }

  /** Only the low bits count. */
  lemma {:induction false} RevLow(bits: nat, i: nat, k: nat)
    ensures Rev(bits, i + Mul(k, Pow2(bits))) == Rev(bits, i)
  {
    hide Mul, At;
    if bits > 0 {
      MulDouble(k, Pow2(bits - 1));
      HalveSum(Mul(k, Pow2(bits - 1)), i);
      RevLow(bits - 1, i / 2, k);
      RevStep(bits - 1, i);
      RevStep(bits - 1, i + Mul(k, Pow2(bits)));
    }
  }

  /** Indices that need fewer bits are spread over coarser steps. */
  lemma {:induction false} RevPrefix(bits: nat, few: nat, i: nat)
    requires few <= bits && i < Pow2(few)
    ensures Rev(bits, i) == Mul(Rev(few, i), Pow2(bits - few))
    decreases bits - few
  {
    hide Mul, Rev;
    if few < bits {
      Pow2Mono(few, bits - 1);
      RevTop(bits - 1, i, 0);
      RevPrefix(bits - 1, few, i);
      MulDouble(Rev(few, i), Pow2(bits - 1 - few));
    } else {
      MulCommutes(Rev(few, i), 1);
      MulSmall(Rev(few, i));
    }
  }

  lemma MulDouble(a: nat, p: nat)
    ensures Mul(a, 2 * p) == 2 * Mul(a, p)
  {
  }

  /** Bit j of w. */
  predicate Bit(w: nat, j: nat) {
    w / Pow2(j) % 2 == 1
  }

  /** w |= 1 << j */
  function SetBit(w: nat, j: nat): nat {
    if Bit(w, j) then w else w + Pow2(j)
  }

  ghost predicate IsPow2(n: nat) {
    exists k: nat :: n == Pow2(k)
  }

  /** The number of times n can be halved before it is zero, less one: floor(log2(n)). */
  function Log2(n: nat): (k: nat)
    ensures n >= 1 ==> Pow2(k) <= n < 2 * Pow2(k)
  {
    if n <= 1 then 0 else 1 + Log2(n / 2)
  }

  lemma Log2Unique(n: nat, k: nat)
    requires Pow2(k) <= n < 2 * Pow2(k)
    ensures Log2(n) == k
  {
    if k < Log2(n) {
      Pow2Mono(k, Log2(n));
    } else if Log2(n) < k {
      Pow2Mono(Log2(n), k);
    }
  }

  /** The loop that both words_initialize and reverse_bits run over the bits of i. */
  method ReverseLoop(bits: nat, i: nat) returns (r: nat)
    ensures r == Rev(bits, i)
  {
    r := 0;
    var j := 0;
    while j < bits
      invariant j <= bits
      invariant r == Reversed(bits, i, j)
    {
      ReversedFree(bits, i, j);
      if Bit(i, j) {
        r := SetBit(r, bits - j - 1);
      }
      j := j + 1;
    }
    ReversedAll(bits, i);
  }

  /** What the first j rounds of the loop have collected. */
  ghost function Reversed(bits: nat, i: nat, j: nat): nat
    requires j <= bits
  {
    if j == 0 then 0
    else Reversed(bits, i, j - 1) + (if Bit(i, j - 1) then Pow2(bits - j) else 0)
  }

  /** The bit a round sets was not set before, so or-ing it in adds it. */
  lemma {:induction false} ReversedFree(bits: nat, i: nat, j: nat)
    requires j < bits
    ensures Multiple(Reversed(bits, i, j), 2 * Pow2(bits - j - 1))
    ensures !Bit(Reversed(bits, i, j), bits - j - 1)
  {
    hide Multiple, Bit;
    var p := Pow2(bits - j - 1);
    MultipleOfZero(2 * p);
    if j > 0 {
      ReversedFree(bits, i, j - 1);
      MultipleOfDouble(Reversed(bits, i, j - 1), 2 * p);
      MultipleOfSelf(2 * p);
      MultipleSum(Reversed(bits, i, j - 1), if Bit(i, j - 1) then 2 * p else 0, 2 * p);
    }
    EvenQuotient(Reversed(bits, i, j), bits - j - 1);
  }

  lemma MultipleOfZero(p: nat)
    requires p > 0
    ensures Multiple(0, p)
  {
  }

  lemma MultipleOfSelf(p: nat)
    requires p > 0
    ensures Multiple(p, p)
  {
    DivUnique(p, 1, 0, p);
  }

  lemma MultipleOfDouble(r: nat, p: nat)
    requires p > 0 && Multiple(r, 2 * p)
    ensures Multiple(r, p)
  {
    hide Multiple;
    MultipleOfSelf(p);
    MultipleSum(p, p, p);
    MultipleTransitive(r, 2 * p, p);
  }

  /** A multiple of 2^(k+1) has no bit k. */
  lemma EvenQuotient(r: nat, k: nat)
    requires Multiple(r, 2 * Pow2(k))
    ensures !Bit(r, k)
  {
    hide Multiple, Mul;
    var p := Pow2(k);
    var q := MultipleQuotient(r, 2 * p);
    MulDouble(q, p);
    MulPlus(q, q, p);
    MulMultiple(q + q, p);
  }

  lemma {:induction false} ReversedAll(bits: nat, i: nat)
    ensures Reversed(bits, i, bits) == Rev(bits, i)
  {
    if bits > 0 {
      ReversedShift(bits, i, bits);
      ReversedAll(bits - 1, i / 2);
    }
  }

  lemma {:induction false} ReversedShift(bits: nat, i: nat, j: nat)
    requires 1 <= j <= bits
    ensures Reversed(bits, i, j) == At(i % 2, bits - 1) + Reversed(bits - 1, i / 2, j - 1)
  {
    hide Bit;
    if j == 1 {
      LowestBit(i);
      assert Reversed(bits, i, 0) == 0;
    } else {
      ReversedShift(bits, i, j - 1);
      HalfBit(i, j - 1);
    }
  }

  lemma LowestBit(i: nat)
    ensures Bit(i, 0) <==> i % 2 == 1
  {
  }

  lemma HalfBit(i: nat, j: nat)
    requires j > 0
    ensures Bit(i, j) <==> Bit(i / 2, j - 1)
  {
    DivTwice(i, Pow2(j - 1));
  }

  lemma DivTwice(i: nat, p: nat)
    requires p > 0
    ensures i / (2 * p) == i / 2 / p
  {
    hide Mul;
    var q, r := i / 2 / p, i / 2 % p;
    DivParts(i / 2, p);
    MulDouble(q, p);
    DivMul(q, 2 * r + i % 2, 2 * p);
  }
}
