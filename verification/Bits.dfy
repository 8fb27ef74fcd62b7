/** Powers of two and the bitwise operations the two CIDR generators use, on
    unsigned machine words represented as natural numbers. */
module Bits {

  function Pow2(n: nat): (p: nat)
    ensures p > 0
  {
    if n == 0 then 1 else 2 * Pow2(n - 1)
  }

  /** The low k bits of x, that is x modulo 2^k (see `LowIsRemainder`). */
  function Low(x: nat, k: nat): (r: nat)
    ensures r <= x && r < Pow2(k)
  {
    if k == 0 then 0 else x % 2 + 2 * Low(x / 2, k - 1)
  }

  /** x is a multiple of 2^k. */
  predicate MultipleOf(x: nat, k: nat) {
    Low(x, k) == 0
  }

  /** Bitwise conjunction of two natural numbers, low bit first. */
  function And(x: nat, y: nat): nat {
    if x == 0 || y == 0 then 0
    else (if x % 2 == 1 && y % 2 == 1 then 1 else 0) + 2 * And(x / 2, y / 2)
  }

  /** Two's complement negation of a `width`-bit word. */
  function Neg(x: nat, width: nat): nat
    requires x < Pow2(width)
  {
    if x == 0 then 0 else Pow2(width) - x
  }

  /** Number of bits needed to write x: Go's `bits.Len64`. */
  function Len(x: nat): nat {
    if x == 0 then 0 else 1 + Len(x / 2)
  }

  /** Number of low zero bits of a nonzero word: Go's `bits.TrailingZeros64`. */
  function TrailingZeros(x: nat): nat
    requires x > 0
  {
    if x % 2 == 1 then 0 else 1 + TrailingZeros(x / 2)
  }

  /** The lowest set bit of a nonzero number, as a power of two. */
  function LowBit(x: nat): nat
    requires x > 0
  {
    Pow2(TrailingZeros(x))
  }

  // ---- powers ----

  lemma {:induction false} Pow2Mono(a: nat, b: nat)
    requires a <= b
    ensures Pow2(a) <= Pow2(b)
    decreases b
  {
    if a < b { Pow2Mono(a, b - 1); }
  }

  lemma {:induction false} Pow2Order(a: nat, b: nat)
    requires Pow2(a) <= Pow2(b)
    ensures a <= b
  {
    if b < a { Pow2Mono(b, a - 1); }
  }

  lemma {:induction false} Pow2Sum(a: nat, b: nat)
    ensures Pow2(a + b) == Pow2(a) * Pow2(b)
    decreases b
  {
    if b > 0 { Pow2Sum(a, b - 1); }
  }

  lemma {:induction false} LowIsRemainder(x: nat, k: nat) returns (q: nat)
    ensures x == Pow2(k) * q + Low(x, k)
  {
    q := x;
    if k > 0 {
      q := LowIsRemainder(x / 2, k - 1);
      DoubleTimes(Pow2(k - 1), q);
      assert Pow2(k) == 2 * Pow2(k - 1);
    }
  }

  lemma {:induction false} DoubleTimes(p: nat, q: nat)
    ensures (2 * p) * q == 2 * (p * q)
  {
  }

  // ---- multiples of a power of two ----

  /** A multiple of 2^b is a multiple of every smaller power. */
  lemma {:induction false} MultipleOfLess(x: nat, a: nat, b: nat)
    requires a <= b && MultipleOf(x, b)
    ensures MultipleOf(x, a)
    decreases b
  {
    if a > 0 { MultipleOfLess(x / 2, a - 1, b - 1); }
  }

  lemma {:induction false} PowerIsMultiple(a: nat, b: nat)
    requires a <= b
    ensures MultipleOf(Pow2(b), a)
  {
    if a > 0 { PowerIsMultiple(a - 1, b - 1); }
  }

  lemma {:induction false} MultipleSum(u: nat, v: nat, k: nat)
    requires MultipleOf(u, k) && MultipleOf(v, k)
    ensures MultipleOf(u + v, k)
  {
    if k > 0 {
      MultipleSum(u / 2, v / 2, k - 1);
      assert (u + v) / 2 == u / 2 + v / 2;
    }
  }

  lemma {:induction false} MultipleDifference(u: nat, v: nat, k: nat)
    requires MultipleOf(u, k) && MultipleOf(v, k) && v <= u
    ensures MultipleOf(u - v, k)
  {
    if k > 0 {
      MultipleDifference(u / 2, v / 2, k - 1);
      assert (u - v) / 2 == u / 2 - v / 2;
    }
  }

  /** Distinct multiples of 2^k are at least 2^k apart. */
  lemma {:induction false} MultipleGap(u: nat, v: nat, k: nat)
    requires MultipleOf(u, k) && MultipleOf(v, k) && u < v
    ensures u + Pow2(k) <= v
  {
    if k > 0 { MultipleGap(u / 2, v / 2, k - 1); }
  }

  /** Clearing the low k bits leaves a multiple of 2^k. */
  lemma {:induction false} ClearedIsMultiple(x: nat, k: nat)
    ensures MultipleOf(x - Low(x, k), k)
  {
    if k > 0 {
      ClearedIsMultiple(x / 2, k - 1);
      assert (x - Low(x, k)) / 2 == x / 2 - Low(x / 2, k - 1);
    }
  }

  /** Below and beside a multiple of a large power all is a multiple of a small one. */
  lemma {:induction false} EndIsMultiple(base: nat, k: nat, n: nat)
    requires k <= n && MultipleOf(base, n)
    ensures MultipleOf(base, k) && MultipleOf(base + Pow2(n), k)
  {
    MultipleOfLess(base, k, n);
    PowerIsMultiple(k, n);
    MultipleSum(base, Pow2(n), k);
  }

  lemma {:induction false} MiddleIsMultiple(base: nat, k: nat)
    requires MultipleOf(base, k + 1)
    ensures MultipleOf(base + Pow2(k), k) && Pow2(k + 1) == 2 * Pow2(k)
  {
    MultipleOfLess(base, k, k + 1);
    EndIsMultiple(base, k, k);
  }

  // ---- masks and the lowest set bit ----

  lemma {:induction false} AndAllOnes(x: nat, n: nat)
    requires x < Pow2(n)
    ensures And(x, Pow2(n) - 1) == x
  {
    if x > 0 && n > 0 {
      AndAllOnes(x / 2, n - 1);
      assert (Pow2(n) - 1) / 2 == Pow2(n - 1) - 1 && (Pow2(n) - 1) % 2 == 1;
    }
  }

  lemma {:induction false} AndComplement(x: nat, n: nat)
    requires x < Pow2(n)
    ensures And(x, Pow2(n) - 1 - x) == 0
  {
    if x > 0 && n > 0 {
      var y := Pow2(n) - 1 - x;
      assert y / 2 == Pow2(n - 1) - 1 - x / 2;
      AndComplement(x / 2, n - 1);
    }
  }

  /** A mask of n - k ones followed by k zeros clears the low k bits. */
  lemma {:induction false} AndMask(x: nat, mask: nat, n: nat, k: nat)
    requires k <= n && x < Pow2(n) && mask + Pow2(k) == Pow2(n)
    ensures And(x, mask) == x - Low(x, k)
    decreases n
  {
    if k == 0 {
      AndAllOnes(x, n);
    } else {
      AndMask(x / 2, mask / 2, n - 1, k - 1);
    }
  }

  /** The `x & -x` idiom isolates the lowest set bit. */
  lemma {:induction false} AndNegIsLowBit(x: nat, n: nat)
    requires 0 < x < Pow2(n)
    ensures And(x, Neg(x, n)) == LowBit(x)
  {
    var y := Pow2(n) - x;
    if x % 2 == 0 {
      AndNegIsLowBit(x / 2, n - 1);
      assert y / 2 == Pow2(n - 1) - x / 2 && y % 2 == 0;
    } else {
      AndComplement(x / 2, n - 1);
      assert y / 2 == Pow2(n - 1) - 1 - x / 2 && y % 2 == 1;
    }
  }

  /** x is a multiple of 2^k exactly when it has at least k low zero bits. */
  lemma {:induction false} TrailingZerosDivide(x: nat, k: nat)
    requires x > 0
    ensures LowBit(x) <= x
    ensures MultipleOf(x, k) <==> k <= TrailingZeros(x)
    decreases x
  {
    if x % 2 == 0 {
      TrailingZerosDivide(x / 2, if k > 0 then k - 1 else 0);
    }
  }

  /** `1 << (Len(x) - 1)` is the greatest power of two not above x. */
  lemma {:induction false} LenBounds(x: nat)
    requires x > 0
    ensures Len(x) > 0 && Pow2(Len(x) - 1) <= x < Pow2(Len(x))
  {
    if x > 1 { LenBounds(x / 2); }
  }

  lemma {:induction false} TrailingZerosOfPow2(k: nat)
    ensures TrailingZeros(Pow2(k)) == k
  {
    if k > 0 { TrailingZerosOfPow2(k - 1); }
  }
}
