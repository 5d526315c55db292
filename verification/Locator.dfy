/** The heights of a block locator (btcd/blockchain/chainview.go), independent of the loop that builds it. */
module Locator {
  import opened Bits

  function FloorLog2(n: nat): nat {
    if n < 2 then 0 else 1 + FloorLog2(n / 2)
  }

  /** The exponent is pinned by its two powers. */
  lemma {:induction false} FloorLog2Unique(n: nat, e: nat)
    requires Pow2(e) <= n < 2 * Pow2(e)
    ensures FloorLog2(n) == e
  {
    if e > 0 {
      FloorLog2Unique(n / 2, e - 1);
    }
  }

  lemma {:induction false} FloorLog2Bounds(n: nat)
    requires n > 0
    ensures Pow2(FloorLog2(n)) <= n < 2 * Pow2(FloorLog2(n))
  {
    if n >= 2 {
      FloorLog2Bounds(n / 2);
    }
  }

  const LOG2_FLOOR_MASKS: seq<nat> := [0xffff0000, 0xff00, 0xf0, 0xc, 0x2]

  /** The digits still to be searched before round i are 2 * Exponent(i), and the mask covers the upper half. */
  function Exponent(i: nat): nat
    requires i <= 5
  {
    [16, 8, 4, 2, 1, 0][i]
  }

  lemma Square(e: nat, p: nat)
    requires Pow2(e) == p
    ensures Pow2(2 * e) == p * p
  {
    Pow2Add(e, e);
  }

  lemma SmallPowers()
    ensures Pow2(0) == 1 && Pow2(1) == 2 && Pow2(2) == 4 && Pow2(4) == 16
    ensures Pow2(8) == 0x100 && Pow2(16) == 0x1_0000 && Pow2(32) == 0x1_0000_0000
  {
    Square(4, 16);
    Square(8, 0x100);
    Square(16, 0x1_0000);
  }

  lemma MaskOfRound(i: nat)
    requires i < 5
    ensures LOG2_FLOOR_MASKS[i] == Mask(Exponent(i), Exponent(i))
    ensures i < 4 ==> Exponent(i) == 2 * Exponent(i + 1)
    ensures Exponent(i) / 2 == Exponent(i + 1)
  {
    SmallPowers();
  }

  /** One round of the search: test the upper half of the 2e remaining digits. */
  lemma HalveDigits(n0: nat, n: nat, rv: nat, e: nat)
    requires n == ShiftRight(n0, rv) && n < Pow2(2 * e)
    ensures And(n, Mask(e, e)) != 0 ==> ShiftRight(n, e) == ShiftRight(n0, rv + e) && 0 < ShiftRight(n, e) < Pow2(e)
    ensures And(n, Mask(e, e)) == 0 ==> n < Pow2(e)
  {
    assert e + e == 2 * e;
    AndMask(n, e, e);
    ShiftRightAdd(n0, rv, e);
    if n >= Pow2(e) {
      Pow2Add(e, e);
      ShiftBounds(n, Pow2(e));
    }
  }

  lemma ShiftBounds(n: nat, p: nat)
    requires 0 < p <= n < p * p
    ensures 0 < n / p < p
  {
    assert n == n / p * p + n % p;
    if n / p >= p {
      MulAtMost(p, n / p, p);
      assert false;
    }
  }

  /** fastLog2Floor: five masked shifts find the floor of the base-two logarithm. */
  method FastLog2Floor(n0: nat) returns (rv: nat)
    requires n0 < 0x1_0000_0000
    ensures rv <= 31
    ensures rv == FloorLog2(n0)
  {
    var n, exponent := n0, 16;
    rv := 0;
    SmallPowers();
    assert ShiftRight(n0, 0) == n0;
    for i := 0 to 5
      invariant exponent == Exponent(i)
      invariant rv + 2 * exponent <= 32 && (i == 5 ==> rv <= 31)
      invariant n == ShiftRight(n0, rv)
      invariant i < 5 ==> n < Pow2(2 * exponent)
      invariant i == 5 ==> n < 2
      invariant n0 > 0 ==> n > 0
      invariant n0 == 0 ==> rv == 0
    {
      MaskOfRound(i);
      HalveDigits(n0, n, rv, exponent);
      if And(n, LOG2_FLOOR_MASKS[i]) != 0 {
        rv := rv + exponent;
        n := ShiftRight(n, exponent);
      }
      exponent := exponent / 2;
    }
    if n0 > 0 {
      QuotientOne(n0, rv);
    }
  }

  lemma QuotientOne(n0: nat, rv: nat)
    requires ShiftRight(n0, rv) == 1
    ensures FloorLog2(n0) == rv
  {
    assert n0 == n0 / Pow2(rv) * Pow2(rv) + n0 % Pow2(rv);
    FloorLog2Unique(n0, rv);
  }

  // ---------------------------------------------------------------- the shape of a locator

  /** How far below the start entry i lies: single steps through the twelfth entry, then doubling gaps. */
  function Offset(i: nat): nat {
    if i <= 11 then i else 9 + Pow2(i - 10)
  }

  /** The gap after entry i. */
  function Gap(i: nat): nat {
    if i <= 10 then 1 else Pow2(i - 10)
  }

  function LocatorHeight(h: nat, i: nat): nat {
    if Offset(i) <= h then h - Offset(i) else 0
  }

  /** The closed form the source reserves capacity by. */
  function LocatorLength(h: nat): (n: nat)
    ensures n >= 1
  {
    if h <= 12 then h + 1 else 12 + FloorLog2(h - 10)
  }

  lemma OffsetStep(i: nat)
    ensures Offset(i + 1) == Offset(i) + Gap(i)
    ensures i >= 10 ==> Gap(i + 1) == 2 * Gap(i)
  {
    if i >= 11 {
      assert Pow2(i - 9) == 2 * Pow2(i - 10);
    }
  }

  lemma OffsetMono(i: nat, j: nat)
    requires i <= j
    ensures Offset(i) + (j - i) <= Offset(j)
    decreases j - i
  {
    if i < j {
      OffsetMono(i + 1, j);
      OffsetStep(i);
    }
  }

  /** The entries before the last are above genesis, and the last one is genesis. */
  lemma LocatorEnds(h: nat, i: nat)
    ensures i < LocatorLength(h) - 1 ==> Offset(i) < h
    ensures i >= LocatorLength(h) - 1 ==> Offset(i) >= h
  {
    var n := LocatorLength(h);
    if h <= 12 {
      assert Pow2(2) == 4 && Pow2(1) == 2;
      assert Offset(11) == 11 && Offset(12) == 13;
    } else {
      var e := FloorLog2(h - 10);
      FloorLog2Bounds(h - 10);
      assert e > 0;
      assert Offset(n - 1) == 9 + Pow2(e + 1);
      assert Offset(n - 2) <= 9 + Pow2(e);
    }
    if i < n - 1 {
      OffsetMono(i, n - 2);
    } else {
      OffsetMono(n - 1, i);
    }
  }
}
