/**
 * The levels of the address index (btcd/blockchain/indexers/addrindex.go), a log-structured list of
 * the transactions of one address.  Level k holds at most 8 * 2^k entries, oldest first, and every
 * level is newer than the one above it.  A level that the bucket lacks is empty.
 */
module AddrLevels {
  import opened Bits
  import opened Paging

  function Capacity(k: nat): nat {
    8 * Pow2(k)
  }

  /** Level 0 is not empty; each level above it is full or half full. */
  predicate SizeOk(k: nat, n: nat) {
    if k == 0 then 1 <= n <= 8 else n == Capacity(k) || n == Capacity(k - 1)
  }

  ghost predicate Filled(p: Levels, from: nat, to: nat) {
    forall k :: from <= k < to && k < |p| ==> SizeOk(k, |p[k]|)
  }

  ghost predicate Empty(p: Levels, from: nat, to: nat) {
    forall k :: from <= k < to && k < |p| ==> p[k] == []
  }

  /** The rule of the index: no gaps, and the sizes above. */
  ghost predicate Ruled(p: Levels, top: nat) {
    top <= |p| && Filled(p, 0, top) && Empty(p, top, |p|)
  }

  // ---------------------------------------------------------------- moving entries between neighbours

  lemma {:induction false} AllFrom(p: Levels, k: nat)
    requires k <= |p|
    ensures All(p) == All(p[k..]) + All(p[..k])
    decreases |p|
  {
    if k == |p| {
      assert p[k..] == [] && p[..k] == p;
    } else {
      var n := |p| - 1;
      AllFrom(p[..n], k);
      assert p[..n][k..] == p[k..][..n - k] && p[..n][..k] == p[..k];
      assert p[k..][n - k] == p[n];
    }
  }

  /** Entries may move between a level and the one below, as long as they stay in order. */
  lemma MoveKeepsAll(p: Levels, k: nat, x: seq<Entry>, y: seq<Entry>)
    requires 0 < k < |p| && x + y == p[k] + p[k - 1]
    ensures All(p[k := x][k - 1 := y]) == All(p)
  {
    var q := p[k := x][k - 1 := y];
    AllFrom(p, k + 1);
    AllFrom(q, k + 1);
    assert p[k + 1..] == q[k + 1..];
    AllTwo(p[..k + 1]);
    AllTwo(q[..k + 1]);
    assert p[..k + 1][..k - 1] == q[..k + 1][..k - 1];
  }

  lemma Regroup(a: seq<Entry>, b: seq<Entry>, c: seq<Entry>)
    ensures a + (b + c) == a + b + c
  {
  }

  lemma AllTwo(p: Levels)
    requires |p| >= 2
    ensures All(p) == p[|p| - 1] + p[|p| - 2] + All(p[..|p| - 2])
  {
    AllMore(p, |p| - 1);
    AllMore(p, |p| - 2);
    assert p[..|p|] == p;
    Regroup(p[|p| - 1], p[|p| - 2], All(p[..|p| - 2]));
  }

  lemma LevelZero(p: Levels)
    requires |p| > 0
    ensures All(p) == All(p[1..]) + p[0]
  {
    AllFrom(p, 1);
    AllMore(p, 0);
    assert p[..0] == [] && p[0] + [] == p[0];
  }

  // ---------------------------------------------------------------- appending an entry

  function Get(p: Levels, k: nat): seq<Entry> {
    if k < |p| then p[k] else []
  }

  /** The first level above 0 that is not full. */
  method FindRoom(levels: Levels, ghost top: nat) returns (cur: nat)
    requires Ruled(levels, top) && top > 0
    ensures 1 <= cur <= top && |Get(levels, cur)| != Capacity(cur)
    ensures forall k :: 1 <= k < cur ==> |levels[k]| == Capacity(k)
  {
    cur := 1;
    while |Get(levels, cur)| == Capacity(cur)
      invariant 1 <= cur <= top
      invariant forall k :: 1 <= k < cur ==> |levels[k]| == Capacity(k)
      decreases top - cur
    {
      cur := cur + 1;
    }
  }

  /** Moves the levels below `cur` up by one, which leaves level 0 to be overwritten. */
  method ShiftUp(levels: Levels, cur: nat) returns (p: Levels)
    requires 1 <= cur < |levels|
    ensures |p| == |levels| && All(p[0 := []]) == All(levels)
    ensures p[cur] == levels[cur] + levels[cur - 1]
    ensures forall k :: 1 <= k < cur ==> p[k] == levels[k - 1]
    ensures forall k :: cur < k < |p| ==> p[k] == levels[k]
  {
    p := levels[cur := levels[cur] + levels[cur - 1]];
    MoveKeepsAll(levels, cur, p[cur], []);
    assert levels[cur := p[cur]][cur - 1 := []] == p[cur - 1 := []];
    var m := cur - 1;
    while m > 0
      invariant m < cur && |p| == |levels| && All(p[m := []]) == All(levels)
      invariant forall k :: 0 <= k <= m ==> p[k] == levels[k]
      invariant forall k :: m < k < cur ==> p[k] == levels[k - 1]
      invariant p[cur] == levels[cur] + levels[cur - 1]
      invariant forall k :: cur < k < |p| ==> p[k] == levels[k]
    {
      MoveKeepsAll(p[m := []], m, p[m - 1], []);
      assert p[m := []][m := p[m - 1]][m - 1 := []] == p[m := p[m - 1]][m - 1 := []];
      p := p[m := p[m - 1]];
      m := m - 1;
    }
  }

  /** More entries at the end of level 0 are more entries at the end of the list. */
  lemma AppendToZero(p: Levels, e: Entry)
    requires |p| > 0
    ensures All(p[0 := p[0] + [e]]) == All(p) + [e]
  {
    var q := p[0 := p[0] + [e]];
    LevelZero(p);
    LevelZero(q);
    assert q[1..] == p[1..];
    assert All(p[1..]) + p[0] + [e] == All(p[1..]) + (p[0] + [e]);
  }

  lemma AppendToCleared(p: Levels, e: Entry)
    requires |p| > 0
    ensures All(p[0 := [e]]) == All(p[0 := []]) + [e]
  {
    var q := p[0 := []];
    AppendToZero(q, e);
    assert q[0] + [e] == [e];
    assert q[0 := q[0] + [e]] == p[0 := [e]];
  }

  lemma NoMoreLevels(p: Levels)
    ensures All(p + [[]]) == All(p)
  {
    assert (p + [[]])[..|p|] == p;
  }

  /** After the shift, level `cur` went from empty to half full or from half full to full. */
  lemma ShiftedSizes(levels: Levels, top: nat, cur: nat, r: Levels)
    requires Ruled(levels, top) && 1 <= cur <= top && |levels| <= |r| && cur < |r|
    requires |levels[0]| == 8 && |Get(levels, cur)| != Capacity(cur)
    requires forall k :: 1 <= k < cur ==> |levels[k]| == Capacity(k)
    requires |r[cur]| == |Get(levels, cur)| + |levels[cur - 1]|
    requires forall k :: 1 <= k < cur ==> r[k] == levels[k - 1]
    requires forall k :: cur < k < |r| ==> r[k] == Get(levels, k)
    requires |r[0]| == 1
    ensures Ruled(r, if cur == top then top + 1 else top)
  {
    assert |levels[cur - 1]| == Capacity(cur - 1);
    assert Capacity(cur) == 2 * Capacity(cur - 1);
    forall k | 1 <= k < cur
      ensures |r[k]| == Capacity(k - 1)
    {
    }
  }

  /** dbPutAddrIndexEntry: one more entry at the end of the list, and the levels keep the rule. */
  method PutEntry(levels: Levels, e: Entry, ghost top: nat) returns (r: Levels, ghost top': nat)
    requires Ruled(levels, top)
    ensures Ruled(r, top') && All(r) == All(levels) + [e]
  {
    if |Get(levels, 0)| + 1 <= 8 {
      r, top' := PutInZero(levels, e, top);
    } else {
      r, top' := PutAbove(levels, e, top);
    }
  }

  method PutInZero(levels: Levels, e: Entry, ghost top: nat) returns (r: Levels, ghost top': nat)
    requires Ruled(levels, top) && |Get(levels, 0)| < 8
    ensures Ruled(r, top') && All(r) == All(levels) + [e]
  {
    top' := if top == 0 then 1 else top;
    if |levels| == 0 {
      r := [[e]];
      LevelZero(r);
      assert r[1..] == [];
    } else {
      AppendToZero(levels, e);
      r := levels[0 := levels[0] + [e]];
    }
  }

  method PutAbove(levels: Levels, e: Entry, ghost top: nat) returns (r: Levels, ghost top': nat)
    requires Ruled(levels, top) && |Get(levels, 0)| >= 8
    ensures Ruled(r, top') && All(r) == All(levels) + [e]
  {
    var cur := FindRoom(levels, top);
    var p := if cur == |levels| then levels + [[]] else levels;
    NoMoreLevels(levels);
    r := ShiftUp(p, cur);
    AppendToCleared(r, e);
    r := r[0 := [e]];
    top' := if cur == top then top + 1 else top;
    ShiftedSizes(levels, top, cur, r);
  }

  // ---------------------------------------------------------------- removing the newest entries

  /** minEntriesToReachLevel: all lower levels full but for level 0, which has one entry. */
  method MinEntriesToReachLevel(level: nat) returns (n: nat)
    ensures n == MinToReach(level)
  {
    var max := 8;
    n := 1;
    for l := 1 to level + 1
      invariant max == Capacity(l - 1) && n == MinToReach(l - 1)
    {
      n := n + max;
      max := max * 2;
    }
  }

  function MinToReach(level: nat): (n: nat)
    ensures n == Capacity(level) - 7
  {
    if level == 0 then 1 else MinToReach(level - 1) + Capacity(level - 1)
  }

  /** Entries that the levels up to this one can hold. */
  function Room(level: nat): (n: nat)
    ensures n == 2 * Capacity(level) - 8
  {
    if level == 0 then 8 else Room(level - 1) + Capacity(level)
  }

  lemma AllDownTo(p: Levels, k: nat)
    requires k < |p| && Empty(p, 0, k)
    ensures All(p) == All(p[k + 1..]) + p[k]
  {
    AllFrom(p, k + 1);
    AllMore(p, k);
    AllEmpty(p[..k]);
    assert p[k] + [] == p[k];
  }

  /** Cutting entries off the lowest level that is not empty cuts them off the list. */
  lemma CutKeepsRest(p: Levels, k: nat, left: nat)
    requires k < |p| && Empty(p, 0, k) && left <= |p[k]|
    ensures |p[k]| - left <= |All(p)|
    ensures All(p[k := p[k][..left]]) == All(p)[..|All(p)| - (|p[k]| - left)]
  {
    var q := p[k := p[k][..left]];
    AllDownTo(p, k);
    AllDownTo(q, k);
    assert q[k + 1..] == p[k + 1..];
  }

  /** Cutting twice. */
  lemma CutAgain(all: seq<Entry>, n: nat, m: nat)
    requires m <= n <= |all|
    ensures all[..n][..m] == all[..m]
  {
  }

  lemma {:induction false} AllEmpty(p: Levels)
    requires Empty(p, 0, |p|)
    ensures All(p) == []
  {
    if p != [] {
      AllEmpty(p[..|p| - 1]);
    }
  }

  /** Of the entries, the newest are gone, and the levels below this one are empty. */
  ghost predicate Emptied(levels: Levels, p: Levels, level: nat, gone: nat) {
    && |p| == |levels| && Empty(p, 0, level)
    && (forall k :: level <= k < |p| ==> p[k] == levels[k])
    && gone <= |All(levels)| && All(p) == All(levels)[..|All(levels)| - gone]
  }

  /** Cutting one more level, wholly or in part. */
  lemma CutLevel(levels: Levels, p: Levels, level: nat, gone: nat, left: nat)
    requires Emptied(levels, p, level, gone) && level < |p| && left <= |p[level]|
    ensures var q, gone' := p[level := p[level][..left]], gone + |p[level]| - left;
            && gone' <= |All(levels)| && All(q) == All(levels)[..|All(levels)| - gone']
            && (left == 0 ==> Emptied(levels, q, level + 1, gone'))
  {
    CutKeepsRest(p, level, left);
    CutAgain(All(levels), |All(p)|, |All(p)| - (|p[level]| - left));
  }

  /**
   * The first loop: empties levels from the lowest on, and cuts the one where the count runs out.
   * Not ok when there are not that many entries.
   */
  method CutNewest(levels: Levels, count: nat, ghost top: nat) returns (p: Levels, h: nat, ok: bool)
    requires Ruled(levels, top) && count > 0
    ensures ok <==> count <= |All(levels)|
    ensures ok ==> |p| == |levels| && h < top && All(p) == All(levels)[..|All(levels)| - count]
    ensures ok ==> Empty(p, 0, h) && |p[h]| < |levels[h]|
    ensures ok ==> forall k :: h < k < |p| ==> p[k] == levels[k]
  {
    var remaining: nat, level: nat := count, 0;
    p := levels;
    while remaining > 0 && |Get(p, level)| > 0 && remaining >= |Get(p, level)|
      invariant remaining <= count && level <= top && Emptied(levels, p, level, count - remaining)
      invariant remaining == 0 ==> level > 0
      decreases top - level
    {
      CutLevel(levels, p, level, count - remaining, 0);
      remaining := remaining - |p[level]|;
      p := p[level := p[level][..0]];
      level := level + 1;
    }
    if remaining == 0 {
      return p, level - 1, true;
    }
    if |Get(p, level)| == 0 {
      assert level == top;
      AllEmpty(p);
      return p, level, false;
    }
    var left := |p[level]| - remaining;
    CutLevel(levels, p, level, count - remaining, left);
    p := p[level := p[level][..left]];
    return p, level, true;
  }

  const NO_LEVEL := 255

  /** How many of n entries stay in a level that is to be squashed: none, half or all it can hold. */
  function Stays(level: nat, n: nat): (r: nat)
    requires level > 0
    ensures r <= n && (r == 0 || SizeOk(level, r))
    ensures r == 0 <==> n < MinToReach(level)
    ensures n <= Room(level) ==> n - r <= Room(level - 1)
    ensures r > 0 ==> n - r >= MinToReach(level - 1)
  {
    var most, half := Capacity(level), Capacity(level - 1);
    if n < half + MinToReach(level - 1) then 0
    else if n - most >= MinToReach(level - 1) then most
    else half
  }

  /** Leaves the first entries of a level and moves the others down to the next, which is empty. */
  function Split(p: Levels, level: nat, stay: nat): (q: Levels)
    requires 0 < level < |p| && stay <= |p[level]|
    ensures |q| == |p| && q[level] == p[level][..stay] && q[level - 1] == p[level][stay..]
    ensures forall k :: 0 <= k < |p| && k != level && k != level - 1 ==> q[k] == p[k]
  {
    p[level := p[level][..stay]][level - 1 := p[level][stay..]]
  }

  lemma SplitKeepsAll(p: Levels, level: nat, stay: nat)
    requires 0 < level < |p| && stay <= |p[level]| && p[level - 1] == []
    ensures All(Split(p, level, stay)) == All(p)
  {
    assert p[level][..stay] + p[level][stay..] == p[level] + p[level - 1];
    MoveKeepsAll(p, level, p[level][..stay], p[level][stay..]);
  }

  /** Levels up to `hk` are in use, those above it up to h are empty. */
  ghost predicate Squashing(p: Levels, level: nat, hk: nat, h: nat) {
    && level <= hk <= h < |p|
    && Empty(p, 0, level)
    && |p[level]| <= Room(level)
    && Filled(p, level + 1, hk + 1)
    && Empty(p, hk + 1, h + 1)
    && (hk > level ==> |p[level]| >= MinToReach(level))
  }

  lemma SquashStep(p: Levels, level: nat, hk: nat, h: nat)
    requires Squashing(p, level, hk, h) && level > 0
    ensures var stay := Stays(level, |p[level]|);
            && Squashing(Split(p, level, stay), level - 1, if stay == 0 then level - 1 else hk, h)
            && (stay == 0 ==> hk == level)
  {
  }

  /** The second loop: what is left of level h fills the lowest levels. */
  method Squash(p0: Levels, h: nat) returns (p: Levels, lowest: nat)
    requires h < |p0| && Empty(p0, 0, h) && |p0[h]| < Capacity(h)
    ensures |p| == |p0| && All(p) == All(p0)
    ensures forall k :: h < k < |p| ==> p[k] == p0[k]
    ensures p[h] != [] ==> Filled(p, 0, h + 1)
    ensures p[h] == [] ==> lowest <= h && Filled(p, 0, lowest) && Empty(p, lowest, h + 1)
  {
    p, lowest := p0, NO_LEVEL;
    var level: nat := h;
    ghost var hk: nat := h;
    while level > 0
      invariant |p| == |p0| && All(p) == All(p0) && Squashing(p, level, hk, h)
      invariant forall k :: h < k < |p| ==> p[k] == p0[k]
      invariant hk < h ==> lowest == hk + 1
    {
      var stay := Stays(level, |p[level]|);
      SplitKeepsAll(p, level, stay);
      SquashStep(p, level, hk, h);
      if stay == 0 {
        lowest := level;
        hk := level - 1;
      }
      p := Split(p, level, stay);
      level := level - 1;
    }
    if p[0] == [] {
      lowest := 0;
    }
  }

  /** The rest of a full level trickles down, half a level at a time, to the lowest empty one. */
  method TrickleDown(p0: Levels, level: nat, lowest: nat) returns (p: Levels)
    requires lowest <= level < |p0| && |p0[level]| == Capacity(level) && Empty(p0, lowest, level)
    ensures |p| == |p0| && All(p) == All(p0) && Filled(p, lowest, level + 1)
    ensures forall k :: (0 <= k < lowest || level < k < |p|) ==> p[k] == p0[k]
  {
    p := p0;
    var cur: nat := level;
    while cur > lowest
      invariant lowest <= cur <= level && |p| == |p0| && All(p) == All(p0)
      invariant |p[cur]| == Capacity(cur) && Empty(p, lowest, cur) && Filled(p, cur + 1, level + 1)
      invariant forall k :: (0 <= k < lowest || level < k < |p|) ==> p[k] == p0[k]
    {
      assert Capacity(cur) == 2 * Capacity(cur - 1);
      SplitKeepsAll(p, cur, Capacity(cur - 1));
      p := Split(p, cur, Capacity(cur - 1));
      cur := cur - 1;
    }
  }

  /** Where the third loop stands: levels below `lowest` are in use, and from there to h none or all. */
  ghost predicate Backfilling(p: Levels, lowest: nat, h: nat, top: nat) {
    && h < top <= |p|
    && Filled(p, h + 1, top) && Empty(p, top, |p|)
    && (p[h] != [] ==> Filled(p, 0, h + 1))
    && (p[h] == [] ==> lowest <= h && Filled(p, 0, lowest) && Empty(p, lowest, h + 1))
  }

  /** One iteration of the third loop, with the next level that has data. */
  method BackfillFrom(p0: Levels, lowest: nat, h: nat, ghost top: nat) returns (p: Levels)
    requires Backfilling(p0, lowest, h, top) && p0[h] == [] && h + 1 < |p0| && p0[h + 1] != []
    ensures |p| == |p0| && All(p) == All(p0) && h + 1 < top && Backfilling(p, h + 1, h + 1, top)
  {
    var level := h + 1;
    assert level < top;
    p := p0;
    if |p[level]| != Capacity(level) {
      SplitKeepsAll(p, level, 0);
      p := Split(p, level, 0);
      level := level - 1;
    }
    p := TrickleDown(p, level, lowest);
  }

  /** The third loop. */
  method Backfill(p0: Levels, lowest0: nat, h0: nat, ghost top: nat) returns (p: Levels, ghost top': nat)
    requires Backfilling(p0, lowest0, h0, top)
    ensures |p| == |p0| && All(p) == All(p0) && Ruled(p, top')
  {
    p := p0;
    var h: nat, lowest: nat := h0, lowest0;
    while |p[h]| == 0
      invariant |p| == |p0| && All(p) == All(p0) && Backfilling(p, lowest, h, top)
      decreases top - h
    {
      if |Get(p, h + 1)| == 0 {
        return p, lowest;
      }
      p := BackfillFrom(p, lowest, h, top);
      h := h + 1;
      lowest := h;
    }
    top' := top;
  }

  /**
   * dbRemoveAddrIndexEntries: the newest entries go, an error changes nothing and means that there are
   * not that many, and the levels keep the rule.
   */
  method RemoveEntries(levels: Levels, count: int, ghost top: nat) returns (r: Levels, ok: bool, ghost top': nat)
    requires Ruled(levels, top)
    ensures Ruled(r, top')
    ensures ok <==> count <= |All(levels)|
    ensures All(r) == if ok && count > 0 then All(levels)[..|All(levels)| - count] else All(levels)
  {
    r, ok, top' := levels, true, top;
    if count <= 0 {
      return;
    }
    var p, h;
    p, h, ok := CutNewest(levels, count, top);
    if !ok {
      return;
    }
    if |p[0]| != 0 {
      return p, ok, top;
    }
    var lowest;
    p, lowest := Squash(p, h);
    r, top' := Backfill(p, lowest, h, top);
  }

  /** With n entries there are about log2(n / 8) levels: 2^(top - 1) * 8 is at most n + 7. */
  lemma {:induction false} LevelsAreLogarithmic(p: Levels, top: nat)
    requires Ruled(p, top) && top > 0
    ensures MinToReach(top - 1) <= |All(p)| <= Room(top - 1)
    ensures Capacity(top - 1) <= |All(p)| + 7
    decreases |p|
  {
    var init := p[..|p| - 1];
    if top < |p| {
      LevelsAreLogarithmic(init, top);
    } else if top > 1 {
      LevelsAreLogarithmic(init, top - 1);
    } else {
      assert init == [];
    }
  }

  /** Levels without gaps are all read by a fetch, which stops at the first that is missing. */
  lemma NothingIsHidden(p: Levels, top: nat)
    requires Ruled(p, top)
    ensures All(Present(p)) == All(p)
  {
    var n := |Present(p)|;
    assert n < top ==> SizeOk(n, |p[n]|);
    AllFrom(p, n);
    forall k | 0 <= k < |p[n..]|
      ensures p[n..][k] == []
    {
      assert p[n + k] == [];
    }
    AllEmpty(p[n..]);
    assert [] + All(p[..n]) == All(p[..n]);
  }

  // ---------------------------------------------------------------- the bucket of one address

  class Bucket {
    var levels: Levels
    ghost var top: nat

    ghost predicate Valid()
      reads this
    {
      Ruled(levels, top)
    }

    constructor ()
      ensures Valid() && All(levels) == []
    {
      levels, top := [], 0;
    }

    method Put(e: Entry)
      requires Valid()
      modifies this
      ensures Valid() && All(levels) == old(All(levels)) + [e]
    {
      levels, top := PutEntry(levels, e, top);
    }

    method Remove(count: int) returns (ok: bool)
      requires Valid()
      modifies this
      ensures Valid() && (ok <==> count <= old(|All(levels)|))
      ensures All(levels) ==
              if ok && count > 0 then old(All(levels))[..old(|All(levels)|) - count] else old(All(levels))
    {
      levels, ok, top := RemoveEntries(levels, count, top);
    }
  }
}
