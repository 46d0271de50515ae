// Machine-word arithmetic: the shifts, masks and ORs of the source are written
// with division, remainder and a bitwise Or on natural numbers.
module Bits {

  function Pow2(n: nat): (p: nat)
    ensures p >= 1
  {
    if n == 0 then 1 else 2 * Pow2(n - 1)
  }

  const TWO32: nat := 0x1_0000_0000

  // ---------------------------------------------------------------- division

  /** Quotient and remainder of unsigned numbers, under names that proofs can hide. */
  function Quot(a: nat, m: nat): (q: nat)
    requires m > 0
  {
    NegativeProduct(a / m, m);
    a / m
  }

  function Rem(a: nat, m: nat): (r: nat)
    requires m > 0
    ensures r < m
  {
    a % m
  }

  lemma QuotRem(n: nat, m: nat)
    requires m > 0
    ensures n == Quot(n, m) * m + Rem(n, m)
  {
  }

  lemma DivModUnique(n: nat, m: nat, q: nat, t: nat)
    requires m > 0 && t < m && n == q * m + t
    ensures Quot(n, m) == q && Rem(n, m) == t
  {
    QuotRem(n, m);
    hide Quot, Rem;
    var d := q - Quot(n, m);
    assert d * m == Rem(n, m) - t;
    if d > 0 { ProductAtLeast(d, m); } else if d < 0 { ProductAtLeast(-d, m); }
  }

  lemma QuotRemStep(n: nat, m: nat)
    requires m > 0
    ensures if n < m then Quot(n, m) == 0 && Rem(n, m) == n
      else Quot(n, m) == 1 + Quot(n - m, m) && Rem(n, m) == Rem(n - m, m)
  {
    hide Quot, Rem;
    if n < m {
      DivModUnique(n, m, 0, n);
    } else {
      QuotRem(n - m, m);
      DivModUnique(n, m, 1 + Quot(n - m, m), Rem(n - m, m));
    }
  }

  lemma NegativeProduct(d: int, m: nat)
    ensures d < 0 ==> d * m + m <= 0
  {
    if d < 0 {
      ProductAtLeast(-d, m);
    }
  }

  lemma ProductAtLeast(d: int, m: nat)
    requires d >= 1
    ensures d * m >= m
  {
  }

  lemma ProductSign(d: int, m: nat)
    requires d >= 0
    ensures d * m >= 0
  {
  }

  // Comparing multiples of m compares their factors.
  lemma FactorsOrdered(k: int, l: int, m: nat)
    requires k * m > (l - 1) * m
    ensures k >= l
  {
    NegativeProduct(k - l, m);
    assert (k - l) * m == k * m - l * m && (l - 1) * m == l * m - m;
  }

  /** a is a multiple of m. */
  predicate Aligned(a: nat, m: nat)
    requires m > 0
  {
    a == 0 || (a >= m && Aligned(a - m, m))
  }

  lemma {:induction false} AlignedIsMultiple(a: nat, m: nat)
    requires m > 0
    ensures Aligned(a, m) <==> Rem(a, m) == 0
  {
    hide Rem;
    QuotRemStep(a, m);
    if a >= m {
      AlignedIsMultiple(a - m, m);
    }
  }

  lemma {:induction false} AlignedSum(a: nat, b: nat, m: nat)
    requires m > 0 && Aligned(a, m) && Aligned(b, m)
    ensures Aligned(a + b, m)
  {
    if a > 0 {
      AlignedSum(a - m, b, m);
    }
  }

  // ---------------------------------------------------------------- logarithms

  /** A logarithm truncated to an integer. */
  function FloorLog2(n: nat): nat
    requires n > 0
  {
    if n == 1 then 0 else 1 + FloorLog2(n / 2)
  }

  /** A logarithm rounded up to an integer. */
  function CeilLog2(n: nat): (k: nat)
    requires n > 0
    ensures n <= Pow2(k) && (k > 0 ==> Pow2(k - 1) < n)
  {
    FloorLog2Bounds(n);
    if Pow2(FloorLog2(n)) == n then FloorLog2(n) else FloorLog2(n) + 1
  }

  lemma {:induction false} FloorLog2Bounds(n: nat)
    requires n > 0
    ensures Pow2(FloorLog2(n)) <= n < 2 * Pow2(FloorLog2(n))
  {
    if n > 1 {
      FloorLog2Bounds(n / 2);
    }
  }

  ghost predicate IsPow2(n: nat) { n > 0 && Pow2(FloorLog2(n)) == n }

  lemma {:induction false} Pow2Sum(a: nat, b: nat)
    ensures Pow2(a + b) == Pow2(a) * Pow2(b)
  {
    if a > 0 {
      Pow2Sum(a - 1, b);
    }
  }

  lemma {:induction false} Pow2Monotone(a: nat, b: nat)
    requires a <= b
    ensures Pow2(a) <= Pow2(b)
    decreases b
  {
    if a < b {
      Pow2Monotone(a, b - 1);
    }
  }

  // ---------------------------------------------------------------- fields

  /** Right shift of an unsigned number. */
  function Shr(a: nat, k: nat): nat
    decreases k
  {
    if k == 0 then a else Shr(a / 2, k - 1)
  }

  /** The low k bits of an unsigned number. */
  function Low(a: nat, k: nat): (b: nat)
    ensures b < Pow2(k)
    decreases k
  {
    if k == 0 then 0 else 2 * Low(a / 2, k - 1) + a % 2
  }

  /** Left shift of an unsigned number, without dropping bits. */
  function Shl(a: nat, k: nat): nat
    decreases k
  {
    if k == 0 then a else 2 * Shl(a, k - 1)
  }

  /** Bitwise or. */
  function Or(a: nat, b: nat): nat
    decreases a + b
  {
    if a == 0 && b == 0 then 0
    else 2 * Or(a / 2, b / 2) + (if a % 2 == 1 || b % 2 == 1 then 1 else 0)
  }

  lemma {:induction false} ShlIsProduct(a: nat, k: nat)
    ensures Shl(a, k) == a * Pow2(k)
    decreases k
  {
    if k > 0 {
      ShlIsProduct(a, k - 1);
      ProductAssociates(2, a, Pow2(k - 1));
    }
  }

  lemma ProductAssociates(a: nat, b: nat, c: nat)
    ensures b * (a * c) == a * (b * c)
  {
  }

  /** The number of bits set. */
  function PopCount(n: nat): nat { if n == 0 then 0 else n % 2 + PopCount(n / 2) }

  /** Bitwise and. */
  function And(a: nat, b: nat): nat {
    if a == 0 || b == 0 then 0 else 2 * And(a / 2, b / 2) + (if a % 2 == 1 && b % 2 == 1 then 1 else 0)
  }

  // ---------------------------------------------------------------- laws

  // A number is its low k bits and the rest, in one way only.
  lemma {:induction false} LowShr(a: nat, k: nat)
    ensures a == Low(a, k) + Shl(Shr(a, k), k)
    decreases k
  {
    if k > 0 { LowShr(a / 2, k - 1); }
  }

  lemma {:induction false} LowShrUnique(t: nat, q: nat, k: nat)
    requires t < Pow2(k)
    ensures Low(t + Shl(q, k), k) == t && Shr(t + Shl(q, k), k) == q
    decreases k
  {
    if k > 0 {
      LowShrUnique(t / 2, q, k - 1);
      assert (t + Shl(q, k)) / 2 == t / 2 + Shl(q, k - 1);
    }
  }

  // Shifting and masking are division and remainder by a power of two.
  lemma ShiftsAreDivision(a: nat, k: nat)
    ensures Shr(a, k) == Quot(a, Pow2(k)) && Low(a, k) == Rem(a, Pow2(k))
  {
    hide Shr, Low, Shl, Pow2, Quot, Rem;
    LowShr(a, k);
    ShlIsProduct(Shr(a, k), k);
    DivModUnique(a, Pow2(k), Shr(a, k), Low(a, k));
  }

  lemma {:induction false} LowIsSmall(a: nat, k: nat)
    requires a < Pow2(k)
    ensures Low(a, k) == a && Shr(a, k) == 0
    decreases k
  {
    if k > 0 { LowIsSmall(a / 2, k - 1); }
  }

  lemma OneShift(a: nat)
    ensures Shr(a, 1) == a / 2 && Low(a, 1) == a % 2
  {
    assert Shr(a / 2, 0) == a / 2 && Low(a / 2, 0) == 0;
  }

  lemma OneShl(a: nat)
    ensures Shl(a, 1) == 2 * a && Pow2(1) == 2
  {
    assert Shl(a, 0) == a && Pow2(0) == 1;
  }

  lemma Pow2Positive(k: nat)
    ensures 0 < Pow2(k)
  {
  }

  lemma {:induction false} ZeroShift(k: nat)
    ensures Shl(0, k) == 0
    decreases k
  {
    if k > 0 { ZeroShift(k - 1); }
  }

  lemma {:induction false} BitIsPow2(k: nat)
    ensures Shl(1, k) == Pow2(k)
  {
    if k > 0 { BitIsPow2(k - 1); }
  }

  lemma {:induction false} ShrTwice(a: nat, j: nat, k: nat)
    ensures Shr(a, j + k) == Shr(Shr(a, j), k)
    decreases j
  {
    if j > 0 { ShrTwice(a / 2, j - 1, k); }
  }

  // A field that ends below bit n does not see the bits from n on.
  lemma {:induction false} LowOfLow(a: nat, k: nat, n: nat)
    requires k <= n
    ensures Low(Low(a, n), k) == Low(a, k)
    ensures Shr(Low(a, n), k) == Low(Shr(a, k), n - k)
    decreases k
  {
    if k > 0 {
      LowOfLow(a / 2, k - 1, n - 1);
      assert Low(a, n) / 2 == Low(a / 2, n - 1);
    }
  }

  lemma {:induction false} ShlSum(a: nat, j: nat, k: nat)
    ensures Shl(Shl(a, j), k) == Shl(a, j + k)
    decreases k
  {
    if k > 0 { ShlSum(a, j, k - 1); }
  }

  lemma {:induction false} ShlOfSum(a: nat, b: nat, k: nat)
    ensures Shl(a + b, k) == Shl(a, k) + Shl(b, k)
    decreases k
  {
    if k > 0 { ShlOfSum(a, b, k - 1); }
  }

  lemma {:induction false} ShlMonotone(a: nat, b: nat, k: nat)
    ensures a < b <==> Shl(a, k) < Shl(b, k)
    ensures a < b ==> Shl(a, k) + Pow2(k) <= Shl(b, k)
    decreases k
  {
    if k > 0 { ShlMonotone(a, b, k - 1); }
  }

  lemma {:induction false} ShlPow2(j: nat, k: nat)
    ensures Shl(Pow2(j), k) == Pow2(j + k)
    decreases k
  {
    if k > 0 { ShlPow2(j, k - 1); }
  }

  lemma {:induction false} OrZero(a: nat)
    ensures Or(a, 0) == a && Or(0, a) == a
  {
    if a > 0 { OrZero(a / 2); }
  }

  // Fields that do not overlap are combined by adding them.
  lemma {:induction false} OrDisjoint(a: nat, c: nat, k: nat)
    requires a < Pow2(k)
    ensures Or(a, Shl(c, k)) == a + Shl(c, k)
    decreases k
  {
    if k == 0 {
      OrZero(c);
    } else {
      OrDisjoint(a / 2, c, k - 1);
      OrBits(a / 2, Shl(c, k - 1), a % 2, 0);
    }
  }

  // The low bits of a combination are the combination of the low bits.
  lemma {:induction false} OrLow(a: nat, b: nat, k: nat)
    ensures Low(Or(a, b), k) == Or(Low(a, k), Low(b, k))
    decreases k
  {
    hide Or;
    if k > 0 {
      OrLow(a / 2, b / 2, k - 1);
      OrBits(a / 2, b / 2, a % 2, b % 2);
      OrBits(Low(a / 2, k - 1), Low(b / 2, k - 1), a % 2, b % 2);
    } else {
      OrZero(0);
    }
  }

  lemma OrBits(a: nat, b: nat, s: nat, t: nat)
    requires s < 2 && t < 2
    ensures Or(2 * a + s, 2 * b + t) == 2 * Or(a, b) + (if s == 1 || t == 1 then 1 else 0)
  {
  }

  // Masking a shifted number, and a number with a field above.
  lemma {:induction false} LowOfSum(t: nat, q: nat, j: nat, k: nat)
    requires t < Pow2(j)
    ensures Low(t + Shl(q, j), j + k) == t + Shl(Low(q, k), j)
    decreases j
  {
    if j > 0 {
      LowOfSum(t / 2, q, j - 1, k);
      assert (t + Shl(q, j)) / 2 == t / 2 + Shl(q, j - 1);
    }
  }

  lemma {:induction false} SumBelow(t: nat, q: nat, j: nat, k: nat)
    requires t < Pow2(j)
    ensures t + Shl(q, j) < Pow2(j + k) <==> q < Pow2(k)
    decreases j
  {
    if j > 0 { SumBelow(t / 2, q, j - 1, k); }
  }

  // Setting bit n of a number below 2^(n+1).
  lemma {:induction false} OrTopBit(a: nat, n: nat)
    requires a < Pow2(n + 1)
    ensures Or(a, Shl(1, n)) == Low(a, n) + Shl(1, n)
    decreases n
  {
    if n == 0 {
      assert a < 2 && Or(0, 0) == 0;
    } else {
      OrTopBit(a / 2, n - 1);
      OrBits(a / 2, Shl(1, n - 1), a % 2, 0);
    }
  }

  // ---------------------------------------------------------------- masks

  lemma {:induction false} PopCountOfMask(k: nat)
    ensures PopCount(Pow2(k) - 1) == k
  {
    if k > 0 {
      PopCountOfMask(k - 1);
      assert (Pow2(k) - 1) / 2 == Pow2(k - 1) - 1 && (Pow2(k) - 1) % 2 == 1;
    }
  }

  lemma {:induction false} AndMask(a: nat, k: nat)
    ensures And(a, Pow2(k) - 1) == Low(a, k)
    decreases k
  {
    if k > 0 {
      AndMask(a / 2, k - 1);
      assert (Pow2(k) - 1) / 2 == Pow2(k - 1) - 1 && (Pow2(k) - 1) % 2 == 1;
      if a == 0 { LowIsSmall(0, k); }
    }
  }

  lemma {:induction false} OrCommutes(a: nat, b: nat)
    ensures Or(a, b) == Or(b, a)
    decreases a + b
  {
    if a > 0 || b > 0 { OrCommutes(a / 2, b / 2); }
  }
}
