/**
 * The heights visited by the skip-list walk of `blockNode.Ancestor`
 * (btcd/blockchain/blockindex.go), and how many of them there can be.
 */
module SkipWalk {
  import opened Bits

  /** invertLowestOne: `n & (n - 1)`. */
  function InvertLowestOne(n: nat): nat {
    if n == 0 then 0 else And(n, n - 1)
  }

  /** getAncestorHeight: the height of the skip pointer of a node at height n. */
  function GetAncestorHeight(n: nat): nat {
    InvertLowestOne(InvertLowestOne(n))
  }

  lemma InvertLowestOneRec(n: nat)
    ensures n % 2 == 1 ==> InvertLowestOne(n) == n - 1
    ensures n % 2 == 0 ==> InvertLowestOne(n) == 2 * InvertLowestOne(n / 2)
  {
    if n % 2 == 1 {
      assert (n - 1) / 2 == n / 2;
      AndSelf(n / 2);
    } else if n > 0 {
      assert (n - 1) / 2 == n / 2 - 1;
    }
  }

  lemma {:induction false} InvertLowestOneLess(n: nat)
    requires n > 0
    ensures InvertLowestOne(n) < n
  {
    InvertLowestOneRec(n);
    if n % 2 == 0 {
      InvertLowestOneLess(n / 2);
    }
  }

  lemma AncestorHeightLess(n: nat)
    ensures n > 0 ==> GetAncestorHeight(n) < n
    ensures GetAncestorHeight(0) == 0
  {
    if n > 0 {
      InvertLowestOneLess(n);
      if InvertLowestOne(n) > 0 {
        InvertLowestOneLess(InvertLowestOne(n));
      }
    }
  }

  /** One iteration of the loop: the skip when it does not overshoot, else the parent. */
  function NextHeight(skip: nat -> nat, h: nat, target: nat): (r: nat)
    requires target < h
    ensures target <= r < h
  {
    if target <= skip(h) < h then skip(h) else h - 1
  }

  /** The number of loop iterations from height h down to the target height. */
  function WalkSteps(skip: nat -> nat, h: nat, target: nat): nat
    requires target <= h
    decreases h
  {
    if h == target then 0 else 1 + WalkSteps(skip, NextHeight(skip, h, target), target)
  }

  /** Marks a height whose skip a proof needs to know. */
  ghost predicate Pinned(h: nat) { true }

  /** skip is getAncestorHeight; a proof looks the value up one pinned height at a time. */
  ghost predicate IsSkip(skip: nat -> nat) {
    forall h: nat {:trigger Pinned(h)} :: Pinned(h) ==> skip(h) == GetAncestorHeight(h)
  }

  /** A skip that does not overshoot is taken. */
  lemma SkipStep(skip: nat -> nat, h: nat, to: nat, target: nat)
    requires to == skip(h) && target <= to < h
    ensures WalkSteps(skip, h, target) == 1 + WalkSteps(skip, to, target)
  {
  }

  // ---------------------------------------------------------------- digits

  /** The low n digits of x are zero. */
  ghost predicate Aligned(x: nat, n: nat) {
    n == 0 || (x % 2 == 0 && Aligned(x / 2, n - 1))
  }

  lemma {:induction false} AlignedZero(n: nat)
    ensures Aligned(0, n)
  {
    if n > 0 { AlignedZero(n - 1); }
  }

  lemma {:induction false} AlignedLess(x: nat, n: nat, m: nat)
    requires m <= n && Aligned(x, n)
    ensures Aligned(x, m)
  {
    if m > 0 { AlignedLess(x / 2, n - 1, m - 1); }
  }

  lemma {:induction false} AlignedPlus(x: nat, n: nat, m: nat)
    requires m <= n && Aligned(x, m)
    ensures Aligned(x + Pow2(n), m)
  {
    if m > 0 {
      assert (x + Pow2(n)) / 2 == x / 2 + Pow2(n - 1);
      AlignedPlus(x / 2, n - 1, m - 1);
    }
  }

  /** Clearing the lowest one of an aligned x plus a smaller r only touches r. */
  lemma {:induction false} InvertLocal(x: nat, m: nat, r: nat)
    requires Aligned(x, m) && 0 < r < Pow2(m)
    ensures InvertLowestOne(x + r) == x + InvertLowestOne(r)
  {
    InvertLowestOneRec(x + r);
    InvertLowestOneRec(r);
    if r % 2 == 0 {
      assert (x + r) / 2 == x / 2 + r / 2;
      InvertLocal(x / 2, m - 1, r / 2);
    }
  }

  lemma {:induction false} InvertPow2(b: nat)
    ensures InvertLowestOne(Pow2(b)) == 0
  {
    if b > 0 {
      InvertLowestOneRec(Pow2(b));
      InvertPow2(b - 1);
    }
  }

  /** The ones at positions i..n-1. */
  function Ones(n: nat, i: nat): nat
    requires i <= n
  {
    Pow2Mono(i, n);
    Pow2(n) - Pow2(i)
  }

  lemma {:induction false} AlignedOnes(n: nat, i: nat)
    requires i <= n
    ensures Aligned(Ones(n, i), i)
  {
    if i > 0 {
      assert Ones(n, i) / 2 == Ones(n - 1, i - 1);
      AlignedOnes(n - 1, i - 1);
    }
  }

  lemma InvertOnes(n: nat, i: nat)
    requires i < n
    ensures InvertLowestOne(Ones(n, i)) == Ones(n, i + 1)
    ensures Ones(n, i) > 0
  {
    Pow2Mono(i, n);
    AlignedOnes(n, i + 1);
    InvertLocal(Ones(n, i + 1), i + 1, Pow2(i));
    InvertPow2(i);
  }

  /** A skip from a run of at least two ones removes the lowest two of them. */
  lemma SkipOnes(skip: nat -> nat, x: nat, n: nat, i: nat)
    requires IsSkip(skip)
    requires Aligned(x, n) && i + 2 <= n
    ensures skip(x + Ones(n, i)) == x + Ones(n, i + 2)
  {
    InvertOnes(n, i);
    InvertOnes(n, i + 1);
    InvertLocal(x, n, Ones(n, i));
    InvertLocal(x, n, Ones(n, i + 1));
    assert Pinned(x + Ones(n, i));
  }

  lemma AlignedMiddle(a: nat, n: nat)
    requires Aligned(a, n + 1)
    ensures Aligned(a + Pow2(n), n) && Aligned(a, n)
  {
    AlignedLess(a, n + 1, n);
    AlignedPlus(a, n, n);
  }

  /** The lowest one of a + 2^n is 2^n when a is aligned above it. */
  lemma InvertMiddle(a: nat, n: nat)
    requires Aligned(a, n + 1)
    ensures InvertLowestOne(a + Pow2(n)) == a
  {
    InvertLocal(a, n + 1, Pow2(n));
    InvertPow2(n);
  }

  /** A skip from the middle of a block leaves the block or goes to its start. */
  lemma SkipMiddle(skip: nat -> nat, a: nat, n: nat)
    requires IsSkip(skip) && Aligned(a, n + 1)
    ensures skip(a + Pow2(n)) <= a
    ensures a == 0 ==> skip(a + Pow2(n)) == 0
  {
    InvertMiddle(a, n);
    if a > 0 { InvertLowestOneLess(a); }
    assert Pinned(a + Pow2(n));
  }

  /** A skip from a single one above the middle of a block goes to the start of the block. */
  lemma SkipLoneBit(skip: nat -> nat, a: nat, n: nat, b: nat)
    requires IsSkip(skip) && Aligned(a, n + 1) && b < n
    ensures skip(a + Pow2(n) + Pow2(b)) == a
  {
    Pow2Mono(b, n);
    AlignedMiddle(a, n);
    InvertMiddle(a, n);
    InvertLocal(a + Pow2(n), n, Pow2(b));
    InvertPow2(b);
    assert Pinned(a + Pow2(n) + Pow2(b));
  }

  // ---------------------------------------------------------------- runs of ones

  lemma SkipPair(skip: nat -> nat, x: nat, n: nat, i: nat, target: nat)
    requires IsSkip(skip)
    requires Aligned(x, n) && i + 2 <= n && target <= x + Ones(n, i + 2)
    ensures target <= x + Ones(n, i)
    ensures WalkSteps(skip, x + Ones(n, i), target) == 1 + WalkSteps(skip, x + Ones(n, i + 2), target)
  {
    SkipOnes(skip, x, n, i);
    Pow2Mono(i, i + 2);
    SkipStep(skip, x + Ones(n, i), x + Ones(n, i + 2), target);
  }

  /** Walking down a run of ones two digits at a time. */
  lemma {:induction false} RunDown(skip: nat -> nat, x: nat, n: nat, i: nat, j: nat, target: nat)
    requires IsSkip(skip)
    requires Aligned(x, n)
    requires i <= j <= n && (j - i) % 2 == 0
    requires target <= x + Ones(n, j)
    ensures target <= x + Ones(n, i)
    ensures WalkSteps(skip, x + Ones(n, i), target) == (j - i) / 2 + WalkSteps(skip, x + Ones(n, j), target)
    decreases j - i
  {
    if i < j {
      RunDown(skip, x, n, i + 2, j, target);
      SkipPair(skip, x, n, i, target);
    }
  }

  /** The iterations it takes to walk n ones off when the target lies just below them. */
  function RunCost(n: nat): nat {
    if n % 2 == 0 then n / 2 else n
  }

  /** From a single one above the middle of a block the walk must go through the parent too. */
  lemma LoneBitStep(skip: nat -> nat, a: nat, n: nat, b: nat, target: nat)
    requires IsSkip(skip)
    requires Aligned(a, n + 1) && b < n && a <= target < a + Pow2(n)
    ensures var x := a + Pow2(n);
      WalkSteps(skip, x + Pow2(b), target) == 1 + if a < target then WalkSteps(skip, x + Ones(b, 0), target) else 0
  {
    var h := a + Pow2(n) + Pow2(b);
    SkipLoneBit(skip, a, n, b);
    assert WalkSteps(skip, h, target) == 1 + WalkSteps(skip, NextHeight(skip, h, target), target);
    assert NextHeight(skip, h, target) == if a < target then a + Pow2(n) + Ones(b, 0) else target;
  }

  /**
   * From b ones above the middle of the block [a, a + 2^(n+1)) down to the middle, for a
   * target in the lower half; a target at the very start can be reached sooner.
   */
  lemma RunOff(skip: nat -> nat, a: nat, n: nat, b: nat, target: nat)
    requires IsSkip(skip)
    requires Aligned(a, n + 1) && b <= n && a <= target < a + Pow2(n)
    ensures var x := a + Pow2(n);
      && WalkSteps(skip, x + Ones(b, 0), target) <= RunCost(b) + WalkSteps(skip, x, target)
      && (a < target ==> WalkSteps(skip, x + Ones(b, 0), target) == RunCost(b) + WalkSteps(skip, x, target))
  {
    AlignedMiddle(a, n);
    AlignedLess(a + Pow2(n), n, b);
    if b % 2 == 0 {
      RunDown(skip, a + Pow2(n), b, 0, b, target);
    } else {
      RunOffOdd(skip, a, n, b, target);
    }
  }

  lemma RunOffOdd(skip: nat -> nat, a: nat, n: nat, b: nat, target: nat)
    requires IsSkip(skip)
    requires Aligned(a, n + 1) && b <= n && b % 2 == 1 && a <= target < a + Pow2(n)
    ensures WalkSteps(skip, a + Pow2(n) + Ones(b, 0), target) ==
            if a < target then b + WalkSteps(skip, a + Pow2(n), target) else (b + 1) / 2
  {
    AlignedMiddle(a, n);
    RunToLoneBit(skip, a + Pow2(n), n, b, target);
    LoneBitStep(skip, a, n, b - 1, target);
    RunFromLoneBit(skip, a, n, b - 1, target);
  }

  lemma RunFromLoneBit(skip: nat -> nat, a: nat, n: nat, c: nat, target: nat)
    requires IsSkip(skip)
    requires Aligned(a + Pow2(n), n) && c < n && c % 2 == 0 && target < a + Pow2(n)
    ensures WalkSteps(skip, a + Pow2(n) + Ones(c, 0), target) == c / 2 + WalkSteps(skip, a + Pow2(n), target)
  {
    AlignedLess(a + Pow2(n), n, c);
    RunDown(skip, a + Pow2(n), c, 0, c, target);
  }

  lemma RunToLoneBit(skip: nat -> nat, x: nat, n: nat, b: nat, target: nat)
    requires IsSkip(skip)
    requires Aligned(x, n) && b <= n && b % 2 == 1 && target <= x
    ensures WalkSteps(skip, x + Ones(b, 0), target) == (b - 1) / 2 + WalkSteps(skip, x + Pow2(b - 1), target)
  {
    AlignedLess(x, n, b);
    RunDown(skip, x, b, 0, b - 1, target);
    assert Ones(b, b - 1) == Pow2(b - 1);
  }

  /** From the middle of a block the walk must go through the parent, unless one skip ends it. */
  lemma StepOff(skip: nat -> nat, a: nat, n: nat, target: nat)
    requires IsSkip(skip)
    requires Aligned(a, n + 1) && a <= target < a + Pow2(n)
    ensures var x := a + Pow2(n);
      && WalkSteps(skip, x, target) <= 1 + WalkSteps(skip, x - 1, target)
      && (a < target ==> WalkSteps(skip, x, target) == 1 + WalkSteps(skip, x - 1, target))
  {
    SkipMiddle(skip, a, n);
    assert WalkSteps(skip, a + Pow2(n), target) == 1 + WalkSteps(skip, NextHeight(skip, a + Pow2(n), target), target);
  }

  /** The most iterations the walk takes from a height that ends in m ones, inside their aligned block. */
  function OnesBound(m: nat): nat {
    if m <= 2 then m else OnesBound(m - 1) + 1 + RunCost(m - 1)
  }

  lemma {:induction false} StepsAtMostDistance(skip: nat -> nat, h: nat, target: nat)
    requires target <= h
    ensures WalkSteps(skip, h, target) <= h - target
  {
    if target < h {
      StepsAtMostDistance(skip, NextHeight(skip, h, target), target);
    }
  }

  lemma {:induction false} FromOnes(skip: nat -> nat, a: nat, m: nat, target: nat)
    requires IsSkip(skip)
    requires Aligned(a, m) && a <= target < a + Pow2(m)
    ensures WalkSteps(skip, a + Pow2(m) - 1, target) <= OnesBound(m)
    decreases m
  {
    if m <= 2 {
      FromFewOnes(skip, a, m, target);
    } else {
      var n := m - 1;
      var x := a + Pow2(n);
      AlignedMiddle(a, n);
      if target >= x {
        FromOnes(skip, x, n, target);
      } else {
        RunOff(skip, a, n, n, target);
        StepOff(skip, a, n, target);
        FromOnes(skip, a, n, target);
      }
    }
  }

  lemma FromFewOnes(skip: nat -> nat, a: nat, m: nat, target: nat)
    requires IsSkip(skip)
    requires m <= 2 && Aligned(a, m) && a <= target < a + Pow2(m)
    ensures WalkSteps(skip, a + Pow2(m) - 1, target) <= m
  {
    assert Pow2(0) == 1 && Pow2(1) == 2 && Pow2(2) == 4;
    if m == 2 && target == a {
      SkipOnes(skip, a, 2, 0);
      assert NextHeight(skip, a + 3, a) == a;
    } else {
      StepsAtMostDistance(skip, a + Pow2(m) - 1, target);
    }
  }

  // ---------------------------------------------------------------- any height

  lemma SkipBothDigits(skip: nat -> nat, x: nat, n: nat, b: nat, target: nat)
    requires IsSkip(skip)
    requires Aligned(x, n + 1) && b < n && target <= x
    ensures WalkSteps(skip, x + Pow2(n) + Pow2(b), target) == 1 + WalkSteps(skip, x, target)
  {
    SkipLoneBit(skip, x, n, b);
    SkipStep(skip, x + Pow2(n) + Pow2(b), x, target);
  }

  /**
   * Skips above an aligned x clear the digits of r two at a time and end at x itself (b < 0)
   * or at a single digit 2^b above it.
   */
  lemma {:induction false} ClearPairs(skip: nat -> nat, x: nat, n: nat, r: nat, target: nat) returns (s: nat, b: int)
    requires IsSkip(skip)
    requires Aligned(x, n) && r < Pow2(n) && target <= x
    ensures b < 0 ==> 2 * s <= n && WalkSteps(skip, x + r, target) == s + WalkSteps(skip, x, target)
    ensures 0 <= b ==> b < n && 2 * s <= b &&
                       WalkSteps(skip, x + r, target) == s + WalkSteps(skip, x + Pow2(b), target)
    decreases n
  {
    if r == 0 {
      s, b := 0, -1;
    } else {
      var y := x + Pow2(n - 1);
      AlignedMiddle(x, n - 1);
      if r < Pow2(n - 1) {
        s, b := ClearPairs(skip, x, n - 1, r, target);
      } else {
        s, b := ClearPairs(skip, y, n - 1, r - Pow2(n - 1), target);
        if b < 0 {
          b := n - 1;
        } else {
          SkipBothDigits(skip, x, n - 1, b, target);
          s, b := s + 1, -1;
        }
      }
    }
  }

  /** From anywhere in the upper half of an aligned block down to its middle. */
  lemma DescendToMiddle(skip: nat -> nat, a: nat, n: nat, r: nat, target: nat)
    requires IsSkip(skip)
    requires Aligned(a, n + 1) && r < Pow2(n) && a <= target < a + Pow2(n)
    ensures WalkSteps(skip, a + Pow2(n) + r, target) <= 3 * n / 2 + WalkSteps(skip, a + Pow2(n), target)
  {
    var x := a + Pow2(n);
    AlignedMiddle(a, n);
    var s, b := ClearPairs(skip, x, n, r, target);
    if 0 <= b {
      LoneBitStep(skip, a, n, b, target);
      RunOff(skip, a, n, b, target);
    }
  }

  /** The most iterations between two heights of one aligned block of size 2^m. */
  function WalkBound(m: nat): nat {
    if m == 0 then 0 else OnesBound(m - 1) + 1 + 3 * (m - 1) / 2
  }

  lemma {:induction false} WithinBlock(skip: nat -> nat, a: nat, m: nat, h: nat, target: nat)
    requires IsSkip(skip)
    requires Aligned(a, m) && a <= target <= h < a + Pow2(m)
    ensures WalkSteps(skip, h, target) <= WalkBound(m)
    decreases m
  {
    if m > 0 {
      var n := m - 1;
      var x := a + Pow2(n);
      AlignedMiddle(a, n);
      if target >= x {
        WithinBlock(skip, x, n, h, target);
      } else if h < x {
        WithinBlock(skip, a, n, h, target);
      } else {
        DescendToMiddle(skip, a, n, h - x, target);
        StepOff(skip, a, n, target);
        FromOnes(skip, a, n, target);
      }
    }
  }

  function BitLength(h: nat): nat {
    if h == 0 then 0 else 1 + BitLength(h / 2)
  }

  lemma {:induction false} BelowBitLength(h: nat)
    ensures h < Pow2(BitLength(h))
    ensures h > 0 ==> Pow2(BitLength(h) - 1) <= h
  {
    if h > 0 {
      BelowBitLength(h / 2);
    }
  }

  lemma {:induction false} OnesBoundQuadratic(m: nat)
    ensures 2 * OnesBound(m) <= m * (m + 1)
  {
    if m > 2 {
      OnesBoundQuadratic(m - 1);
      assert m * (m + 1) == (m - 1) * m + 2 * m;
    }
  }

  lemma WalkBoundQuadratic(k: nat)
    ensures WalkBound(k) <= k * k
  {
    if k > 0 {
      OnesBoundQuadratic(k - 1);
      assert k * k == (k - 1) * k + k;
      assert k > 1 ==> (k - 1) * k >= k;
      if k > 2 {
        assert (k - 1) * k >= 2 * k;
      }
    }
  }

  /** The walk from height h to any height below takes at most k*k iterations, k the bit length of h. */
  lemma WalkIsQuadraticInBits(h: nat, target: nat)
    requires target <= h
    ensures WalkSteps(GetAncestorHeight, h, target) <= WalkBound(BitLength(h)) <= BitLength(h) * BitLength(h)
  {
    BelowBitLength(h);
    AlignedZero(BitLength(h));
    WithinBlock(GetAncestorHeight, 0, BitLength(h), h, target);
    WalkBoundQuadratic(BitLength(h));
  }

  // ---------------------------------------------------------------- the documented worst case

  /** Target 1 meets the bound: every step off a middle and every lone digit costs an iteration. */
  lemma {:induction false} OnesBoundReached(skip: nat -> nat, m: nat, one: nat)
    requires IsSkip(skip)
    requires m >= 2 && one == 1
    ensures one <= Pow2(m) - 1 && WalkSteps(skip, Pow2(m) - 1, one) == OnesBound(m)
  {
    if m == 2 {
      FromThree(skip);
    } else {
      var n := m - 1;
      OnesBoundReached(skip, n, one);
      AlignedZero(m);
      RunOff(skip, 0, n, n, one);
      StepOff(skip, 0, n, one);
      assert Pow2(m) - 1 == 0 + Pow2(n) + Ones(n, 0);
    }
  }

  lemma FromThree(skip: nat -> nat)
    requires IsSkip(skip)
    ensures WalkSteps(skip, 3, 1) == 2
  {
    InvertLowestOneRec(3);
    InvertLowestOneRec(2);
    InvertLowestOneRec(1);
    assert Pinned(3) && Pinned(2);
    assert NextHeight(skip, 3, 1) == 2;
    assert NextHeight(skip, 2, 1) == 1;
  }

  /** From height 2^m, m >= 2, the worst target is 1 and it costs exactly OnesBound(m) + 1 iterations. */
  lemma FromPowerOfTwo(skip: nat -> nat, m: nat, target: nat)
    requires IsSkip(skip)
    requires m >= 2 && target <= Pow2(m)
    ensures 1 <= Pow2(m)
    ensures WalkSteps(skip, Pow2(m), target) <= 1 + OnesBound(m)
    ensures WalkSteps(skip, Pow2(m), 1) == 1 + OnesBound(m)
  {
    var h := Pow2(m);
    Pow2Mono(2, m);
    AlignedZero(m + 1);
    SkipMiddle(skip, 0, m);
    OnesBoundReached(skip, m, 1);
    assert NextHeight(skip, h, 1) == h - 1;
    if 0 < target < h {
      AlignedZero(m);
      FromOnes(skip, 0, m, target);
      assert NextHeight(skip, h, target) == h - 1;
    } else if target == 0 {
      assert NextHeight(skip, h, 0) == 0;
    }
  }

  lemma {:induction false} OnesBoundAt(j: nat)
    requires j >= 1
    ensures 2 * OnesBound(2 * j) == 3 * j * (j + 1) - 2
    ensures 2 * OnesBound(2 * j + 1) == 3 * j * (j + 1) + 2 * j
  {
    if j > 1 {
      OnesBoundAt(j - 1);
      assert 3 * j * (j + 1) == 3 * (j - 1) * j + 6 * j;
    }
    assert OnesBound(2 * j + 1) == OnesBound(2 * j) + 1 + RunCost(2 * j);
  }

  /** No ancestor of a block at height 2^29 is more than 330 steps away, and one is that far. */
  lemma DocumentedWorstCase(target: nat)
    requires target <= Pow2(29)
    ensures WalkSteps(GetAncestorHeight, Pow2(29), target) <= 330
    ensures WalkSteps(GetAncestorHeight, Pow2(29), 1) == 330
  {
    FromPowerOfTwo(GetAncestorHeight, 29, target);
    OnesBoundAt(14);
  }
}
