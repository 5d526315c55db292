/** Bit operations on non-negative machine integers, written over their binary digits. */
module Bits {

  function Pow2(n: nat): (p: nat)
    ensures p >= 1
  {
    if n == 0 then 1 else 2 * Pow2(n - 1)
  }

  /** The operator `&` on two non-negative integers, digit by digit. */
  function And(a: nat, b: nat): nat
    decreases a
  {
    if a == 0 || b == 0 then 0
    else (if a % 2 == 1 && b % 2 == 1 then 1 else 0) + 2 * And(a / 2, b / 2)
  }

  /** The operator `>>` on a non-negative integer. */
  function ShiftRight(a: nat, n: nat): nat {
    DivNat(a, Pow2(n));
    a / Pow2(n)
  }

  lemma DivNat(a: nat, d: nat)
    requires d > 0
    ensures a / d >= 0
  {
  }

  lemma {:induction false} AndSelf(a: nat)
    ensures And(a, a) == a
  {
    if a > 0 {
      AndSelf(a / 2);
    }
  }

  lemma {:induction false} Pow2Add(m: nat, n: nat)
    ensures Pow2(m + n) == Pow2(m) * Pow2(n)
  {
    if m > 0 {
      Pow2Add(m - 1, n);
      assert Pow2(m + n) == 2 * (Pow2(m - 1) * Pow2(n));
    }
  }

  lemma {:induction false} Pow2Mono(m: nat, n: nat)
    requires m <= n
    ensures Pow2(m) <= Pow2(n)
    ensures m < n ==> 2 * Pow2(m) <= Pow2(n)
  {
    if m < n {
      Pow2Mono(m, n - 1);
    }
  }

  lemma MulSmall(k: int, d: int)
    requires -d < k * d < d
    ensures k == 0
  {
  }

  lemma DivUnique(n: nat, d: nat, q: nat, s: nat)
    requires d > 0 && n == q * d + s && s < d
    ensures n / d == q && n % d == s
  {
    assert n == (n / d) * d + n % d;
    assert (n / d - q) * d == s - n % d;
    MulSmall(n / d - q, d);
  }

  /** Two shifts in a row are one shift by the sum. */
  lemma ShiftRightAdd(n: nat, a: nat, b: nat)
    ensures ShiftRight(ShiftRight(n, a), b) == ShiftRight(n, a + b)
  {
    Pow2Add(a, b);
    DivMul(n, Pow2(a), Pow2(b));
  }

  lemma DivMul(n: nat, p: nat, q: nat)
    requires p > 0 && q > 0
    ensures p * q > 0 && n / p / q == n / (p * q)
  {
    var m := n / p;
    NestedRemainder(n, p, m, n % p, q, m / q, m % q);
    DivUnique(n, p * q, m / q, m % q * p + n % p);
  }

  lemma NestedRemainder(n: nat, p: nat, m: nat, lo: nat, q: nat, r: nat, hi: nat)
    requires n == m * p + lo && lo < p
    requires m == r * q + hi && hi < q
    ensures p * q > 0 && hi * p + lo < p * q
    ensures n == r * (p * q) + (hi * p + lo)
  {
    MulAtMost(hi, q - 1, p);
    assert (q - 1) * p == p * q - p;
    assert m * p == (r * q + hi) * p == r * (p * q) + hi * p by {
      MulSpread(r, q, hi, p);
    }
  }

  lemma MulAtMost(a: nat, b: nat, c: nat)
    requires a <= b
    ensures a * c <= b * c
  {
  }

  lemma MulSpread(r: nat, q: nat, hi: nat, p: nat)
    ensures (r * q + hi) * p == r * (p * q) + hi * p
  {
  }

  /** The mask with `ones` ones above `zeros` zeros. */
  function Mask(ones: nat, zeros: nat): nat {
    Pow2Mono(zeros, zeros + ones);
    Pow2(zeros + ones) - Pow2(zeros)
  }

  /** Masking away the low digits of a number that fits the mask tells whether it reaches them. */
  lemma {:induction false} AndMask(n: nat, ones: nat, zeros: nat)
    requires n < Pow2(zeros + ones)
    ensures And(n, Mask(ones, zeros)) != 0 <==> n >= Pow2(zeros)
    decreases zeros + ones
  {
    Pow2Mono(zeros, zeros + ones);
    if zeros > 0 {
      Pow2Mono(zeros - 1, zeros - 1 + ones);
      assert Mask(ones, zeros) == 2 * Mask(ones, zeros - 1);
      AndMask(n / 2, ones, zeros - 1);
      if n > 0 && Mask(ones, zeros) > 0 {
        assert And(n, Mask(ones, zeros)) == 2 * And(n / 2, Mask(ones, zeros - 1));
      }
    } else if ones > 0 && n > 0 {
      assert Pow2(ones) == 2 * Pow2(ones - 1);
      assert Mask(ones, 0) % 2 == 1 && Mask(ones, 0) / 2 == Mask(ones - 1, 0);
      AndMask(n / 2, ones - 1, 0);
      assert And(n, Mask(ones, 0)) == n % 2 + 2 * And(n / 2, Mask(ones - 1, 0));
    }
  }
}
