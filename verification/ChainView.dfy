/** A flat view of one branch of the block tree (btcd/blockchain/chainview.go). */
module ChainViews {
  import opened BlockTree
  import opened Locator

  const APPROX_NODES_PER_WEEK := 6 * 24 * 7

  /** The number of leading places at which two branches agree. */
  function CommonPrefix<T(==)>(a: seq<T>, b: seq<T>): (n: nat)
    ensures n <= |a| && n <= |b|
    ensures forall i :: 0 <= i < n ==> a[i] == b[i]
    ensures n < |a| && n < |b| ==> a[n] != b[n]
  {
    if a == [] || b == [] || a[0] != b[0] then 0
    else 1 + CommonPrefix(a[1..], b[1..])
  }

  lemma {:induction false} CommonPrefixReaches<T>(a: seq<T>, b: seq<T>, k: nat)
    requires k <= |a| && k <= |b| && a[..k] == b[..k]
    ensures k <= CommonPrefix(a, b)
  {
    if k > 0 {
      assert a[0] == a[..k][0] == b[..k][0] == b[0];
      assert a[1..][..k - 1] == a[..k][1..] && b[1..][..k - 1] == b[..k][1..];
      CommonPrefixReaches(a[1..], b[1..], k - 1);
    }
  }

  /** Two chains agree up to a place exactly when they hold the same node there. */
  lemma SameNodeSamePrefix(a: BlockNode, b: BlockNode, i: nat)
    requires a.Rooted() && b.Rooted() && i <= a.height && i <= b.height
    ensures a.Chain()[i] == b.Chain()[i] <==> i < CommonPrefix(a.Chain(), b.Chain())
  {
    ChainAt(a, i);
    ChainAt(b, i);
    if a.Chain()[i] == b.Chain()[i] {
      CommonPrefixReaches(a.Chain(), b.Chain(), i + 1);
    }
  }

  /** Where the nodes of a view are those of the branch of tip. */
  lemma CommonPlaces(nodes: seq<BlockNode?>, tip: BlockNode) returns (common: nat)
    requires tip.Built()
    requires nodes != [] ==> nodes[|nodes| - 1] != null && nodes[|nodes| - 1].Built()
    requires nodes != [] ==> nodes == nodes[|nodes| - 1].Chain()
    ensures common == CommonPrefix(nodes, tip.Chain()) && common <= |nodes| && common <= |tip.Chain()|
    ensures forall i :: 0 <= i < |nodes| && i <= tip.height ==> (nodes[i] == tip.Chain()[i] <==> i < common)
  {
    common := CommonPrefix(nodes, tip.Chain());
    forall i | 0 <= i < |nodes| && i <= tip.height
      ensures nodes[i] == tip.Chain()[i] <==> i < common
    {
      SameNodeSamePrefix(nodes[|nodes| - 1], tip, i);
    }
  }

  /** node lies on the branch that ends in tip. */
  ghost predicate OnBranch(node: BlockNode, tip: BlockNode) {
    tip.Built() && node.height <= tip.height && node == tip.Walk(node.height)
  }

  lemma BranchPlace(node: BlockNode, tip: BlockNode)
    requires OnBranch(node, tip)
    ensures node.Built() && node == tip.Chain()[node.height]
    ensures node.parent == null <==> node.height == 0
    ensures node.parent != null ==> node.parent.height == node.height - 1 && OnBranch(node.parent, tip)
  {
    ChainAt(tip, node.height);
    ChainBuilt(tip, node.height);
    if node.parent != null {
      WalkThrough(tip, node.height, node.height - 1);
    }
  }

  lemma BranchWalk(node: BlockNode, tip: BlockNode, h: nat)
    requires OnBranch(node, tip) && h <= node.height
    ensures node.Built() && node.Walk(h).height == h && OnBranch(node.Walk(h), tip)
  {
    WalkThrough(tip, node.height, h);
  }

  /** What place i of a resized slice holds. */
  function OldPlace(before: seq<BlockNode?>, i: nat): BlockNode? {
    if i < |before| then before[i] else null
  }

  /** The new length, or the capacity to allocate for it, does not fit 32 bits. */
  predicate TipPanics(height: nat, capacity: nat) {
    height >= MAX_INT32 || (capacity < height + 1 && height + 1 + APPROX_NODES_PER_WEEK > MAX_INT32)
  }

  class ChainView {
    // A slice: the first `len` places of a backing array whose other places are stale.
    var backing: array<BlockNode?>
    var len: nat

    predicate Bounded()
      reads this
    {
      len <= backing.Length
    }

    /** The view is empty, or holds exactly the branch that ends in its last place. */
    ghost predicate Valid()
      reads this, backing
    {
      && Bounded() && backing.Length <= MAX_INT32
      && (len > 0 ==>
            && backing[len - 1] != null
            && backing[len - 1].Built()
            && backing[..len] == backing[len - 1].Chain())
    }

    /** The nodes of the view, genesis first. */
    ghost function Nodes(): (s: seq<BlockNode?>)
      requires Valid()
      reads this, backing
    {
      backing[..len]
    }

    /** newChainView; a tip whose place cannot be allocated panics, with the view still empty. */
    constructor (tip: BlockNode?)
      requires tip != null ==> tip.Built() && tip.height <= MAX_INT32
      ensures Valid() && fresh(backing)
      ensures Nodes() == if tip == null || TipPanics(tip.height, 0) then [] else tip.Chain()
    {
      backing := new BlockNode?[0];
      len := 0;
      new;
      var _, _ := SetTip(tip);
    }

    /**
     * setTip.  Whatever branch the view held before, it now holds the branch of the new tip,
     * and only the places where the two branches differ were written.  It panics, and leaves the view
     * alone, exactly when a 32-bit size overflows.
     */
    method SetTip(tip: BlockNode?) returns (panics: bool, ghost writes: nat)
      requires Valid()
      requires tip != null ==> tip.Built() && tip.height <= MAX_INT32
      modifies this, backing
      ensures Valid()
      ensures backing == old(backing) || fresh(backing)
      ensures panics <==> tip != null && TipPanics(tip.height, old(backing.Length))
      ensures panics ==> Nodes() == old(Nodes())
      ensures !panics ==> Nodes() == if tip == null then [] else tip.Chain()
      ensures !panics ==>
                writes == if tip == null then 0 else |tip.Chain()| - CommonPrefix(old(Nodes()), tip.Chain())
    {
      panics, writes := false, 0;
      if tip == null {
        len := 0;
        return;
      }
      ghost var before := Nodes();
      var needed := Wrap32(tip.height + 1);
      if needed < 0 || (backing.Length < needed && Wrap32(needed + APPROX_NODES_PER_WEEK) < needed) {
        return true, 0;
      }
      Resize(needed);
      ghost var common := CommonPlaces(before, tip);
      writes := Fill(tip, before, common);
    }

    /** The loop of setTip: write the branch of the tip downwards until a place already holds its node. */
    method Fill(tip: BlockNode, ghost before: seq<BlockNode?>, ghost common: nat) returns (ghost writes: nat)
      requires tip.Built() && len == tip.height + 1 <= backing.Length
      requires forall i :: 0 <= i < len ==> backing[i] == OldPlace(before, i)
      requires common <= len && common <= |before|
      requires forall i :: 0 <= i < len && i < |before| ==> (before[i] == tip.Chain()[i] <==> i < common)
      modifies backing
      ensures backing[..len] == tip.Chain()
      ensures writes == len - common
    {
      writes := 0;
      var node: BlockNode? := tip;
      while node != null && backing[node.height] != node
        invariant writes <= len - common
        invariant node == null ==> writes == len
        invariant node != null ==> writes == tip.height - node.height && OnBranch(node, tip)
        invariant forall i :: 0 <= i < len - writes ==> backing[i] == OldPlace(before, i)
        invariant forall i :: len - writes <= i < len ==> backing[i] == tip.Chain()[i]
        decreases if node == null then 0 else node.height + 1
      {
        BranchPlace(node, tip);
        backing[node.height] := node;
        writes := writes + 1;
        node := node.parent;
      }
      if node != null {
        BranchPlace(node, tip);
        assert node.height < common;
      }
    }

    /** Grows or shrinks the slice, clearing places that the old slice did not cover. */
    method Resize(needed: nat)
      requires Valid() && needed > 0
      requires backing.Length < needed ==> needed + APPROX_NODES_PER_WEEK <= MAX_INT32
      modifies this, backing
      ensures (backing == old(backing) || fresh(backing)) && backing.Length <= MAX_INT32
      ensures len == needed <= backing.Length
      ensures forall i :: 0 <= i < needed ==> backing[i] == if i < old(len) then old(backing[..len])[i] else null
    {
      if backing.Length < needed {
        var nodes := new BlockNode?[needed + APPROX_NODES_PER_WEEK](_ => null);
        forall i | 0 <= i < len {
          nodes[i] := backing[i];
        }
        backing := nodes;
        len := needed;
      } else {
        var prevLen := len;
        len := needed;
        var i := prevLen;
        while i < needed
          invariant prevLen <= i && (i <= needed || i == prevLen)
          invariant backing == old(backing) && len == needed
          invariant forall k :: 0 <= k < prevLen ==> backing[k] == old(backing[k])
          invariant forall k :: prevLen <= k < i && k < needed ==> backing[k] == null
        {
          backing[i] := null;
          i := i + 1;
        }
      }
    }

    /** tip */
    function Tip(): (r: BlockNode?)
      requires Valid()
      reads this, backing
      ensures r == null <==> Nodes() == []
      ensures r != null ==> r.Built() && Nodes() == r.Chain()
    {
      if len == 0 then null else backing[len - 1]
    }

    /** nodeByHeight */
    function NodeByHeight(h: int): BlockNode?
      requires Bounded()
      reads this, backing
    {
      if h < 0 || h >= len then null else backing[h]
    }

    /** nodeByHeight is the plain walk from the tip. */
    lemma NodeByHeightIsWalk(h: int)
      requires Valid()
      ensures NodeByHeight(h) == if Tip() == null then null else Tip().Walk(h)
    {
      if 0 <= h < len {
        ChainAt(backing[len - 1], h);
      }
    }

    /** contains */
    predicate Contains(node: BlockNode)
      requires Bounded()
      reads this, backing
    {
      NodeByHeight(node.height) == node
    }

    /** One comparison decides membership in the whole view. */
    lemma ContainsIsMembership(node: BlockNode)
      requires Valid()
      ensures Contains(node) <==> node in Nodes()
    {
      if Tip() != null { ChainHeights(Tip()); }
    }

    /** next */
    function Next(node: BlockNode?): BlockNode?
      requires Valid()
      reads this, backing
    {
      if node == null || !Contains(node) then null else NodeByHeight(node.height + 1)
    }

    /** next is the child of the node inside the view, null for the tip and for strangers. */
    lemma NextIsChild(node: BlockNode)
      requires Valid()
      ensures Next(node) != null ==> node in Nodes() && Next(node) in Nodes() && Next(node).parent == node
      ensures Next(node) == null ==> node !in Nodes() || node == Tip()
    {
      ContainsIsMembership(node);
      if Contains(node) {
        NextLinks(node);
      }
    }

    lemma NextLinks(node: BlockNode)
      requires Valid() && Contains(node)
      ensures node.height < len && (node.height + 1 == len ==> node == Tip())
      ensures node.height + 1 < len ==> backing[node.height + 1] != null && backing[node.height + 1].parent == node
    {
      var t := backing[len - 1];
      ChainAt(t, node.height);
      if node.height + 1 < len {
        var n: BlockNode := t.Walk(node.height + 1);
        ChainAt(t, node.height + 1);
        WalkThrough(t, node.height + 1, node.height);
      }
    }

    /** Equals: comparing lengths and tips decides equality of the whole views. */
    predicate Equals(other: ChainView)
      requires Valid() && other.Valid()
      reads this, backing, other, other.backing
      ensures Equals(other) <==> Nodes() == other.Nodes()
    {
      len == other.len && Tip() == other.Tip()
    }

    /** The view and the branch of `start` hold different nodes at every shared height above h. */
    ghost predicate ApartAbove(start: BlockNode, h: int)
      requires Valid() && start.Rooted()
      reads this, backing
    {
      forall i :: h < i <= start.height && 0 <= i ==> NodeByHeight(i) != start.Walk(i)
    }

    lemma ApartMeansNotCommon(start: BlockNode, h: int)
      requires Valid() && start.Rooted() && ApartAbove(start, h)
      ensures forall n :: n in Nodes() && n in start.Chain() ==> n != null && n.height <= h
    {
      ChainHeights(start);
      if Tip() != null { ChainHeights(Tip()); }
      forall n | n in Nodes() && n in start.Chain()
        ensures n != null && n.height <= h
      {
        ChainAt(start, n.height);
      }
    }

    /** The part of findFork's answer that its loop establishes. */
    ghost predicate IsFork(start: BlockNode, r: BlockNode?)
      requires Valid() && start.Rooted()
      reads this, backing
    {
      && (r != null ==> OnBranch(r, start) && Contains(r))
      && ApartAbove(start, if r == null then -1 else r.height)
    }

    lemma ForkIsHighestCommon(start: BlockNode, r: BlockNode?)
      requires Valid() && start.Rooted() && IsFork(start, r)
      ensures r != null ==> r in Nodes() && r in start.Chain()
      ensures forall n :: n in Nodes() && n in start.Chain() ==> r != null && n != null && n.height <= r.height
    {
      ApartMeansNotCommon(start, if r == null then -1 else r.height);
      if r != null {
        BranchPlace(r, start);
        ContainsIsMembership(r);
      }
    }

    /** findFork: the highest node that the branch of `start` shares with the view, or null. */
    method FindFork(start: BlockNode?) returns (r: BlockNode?)
      requires Valid() && (start != null ==> start.Built())
      ensures start == null ==> r == null
      ensures start != null && r != null ==> r in Nodes() && r in start.Chain()
      ensures start != null ==>
                forall n :: n in Nodes() && n in start.Chain() ==> r != null && n != null && n.height <= r.height
    {
      if start == null {
        return null;
      }
      r := start;
      var chainHeight := len - 1;
      if start.height > chainHeight {
        var a, _ := start.Ancestor(chainHeight);
        r := a;
      }
      r := DropToView(r, start);
      ForkIsHighestCommon(start, r);
    }

    /** The loop of findFork: follow parents until the view holds the node. */
    method DropToView(node: BlockNode?, ghost start: BlockNode) returns (r: BlockNode?)
      requires Valid() && start.Built()
      requires node != null ==> OnBranch(node, start)
      requires ApartAbove(start, if node == null then -1 else node.height)
      ensures IsFork(start, r)
    {
      r := node;
      while r != null && !Contains(r)
        invariant r != null ==> OnBranch(r, start)
        invariant ApartAbove(start, if r == null then -1 else r.height)
        decreases if r == null then 0 else r.height + 1
      {
        BranchPlace(r, start);
        ApartDown(start, r);
        r := r.parent;
      }
    }

    lemma ApartDown(start: BlockNode, r: BlockNode)
      requires Valid() && OnBranch(r, start) && !Contains(r) && ApartAbove(start, r.height)
      ensures ApartAbove(start, r.height - 1)
    {
    }

    /** The lookup that locators and interval hashes share: O(1) inside the view, else the skip walk. */
    method AncestorInView(node: BlockNode, h: nat) returns (r: BlockNode)
      requires Valid() && node.Built() && h <= node.height
      ensures r == node.Walk(h) && r.Built()
    {
      if Contains(node) {
        var tip := backing[len - 1];
        ChainAt(tip, node.height);
        ChainAt(tip, h);
        WalkThrough(tip, node.height, h);
        WalkThrough(node, h, h);
        r := backing[h];
      } else {
        var a, _ := node.Ancestor(h);
        r := a;
      }
    }

    /**
     * blockLocator.  The number of entries is exactly what was reserved, entry i is the
     * ancestor at LocatorHeight(h, i), and neither membership in the view nor 32-bit overflow
     * of the doubling step shows in the result.
     */
    method BlockLocator(start: BlockNode?) returns (locator: seq<Hash>, maxEntries: nat)
      requires Valid() && len <= MAX_INT32
      requires start != null ==> start.Built() && start.height <= MAX_INT32
      ensures start == null && Tip() == null ==> locator == []
      ensures var s := if start == null then Tip() else start;
        s != null ==>
          && |locator| == maxEntries == LocatorLength(s.height)
          && (forall i :: 0 <= i < |locator| ==> locator[i] == LocatorEntry(s, i))
    {
      var first := start;
      if first == null {
        first := Tip();
      }
      if first == null {
        return [], 0;
      }
      var h := first.height;
      if h <= 12 {
        maxEntries := h + 1;
      } else {
        var adjusted := FastLog2Floor(h - 10);
        maxEntries := 12 + adjusted;
      }
      locator := CollectLocator(first);
    }

    /** The hash of entry i of the locator for a node. */
    ghost function LocatorEntry(first: BlockNode, i: nat): Hash
      requires first.Rooted()
    {
      first.Walk(LocatorHeight(first.height, i)).header.hash
    }

    /** The loop of blockLocator. */
    method CollectLocator(first: BlockNode) returns (locator: seq<Hash>)
      requires Valid() && first.Built() && first.height <= MAX_INT32
      ensures |locator| == LocatorLength(first.height)
      ensures forall i :: 0 <= i < |locator| ==> locator[i] == LocatorEntry(first, i)
    {
      ghost var maxEntries := LocatorLength(first.height);
      locator := [];
      var step := 1;
      var node: BlockNode? := first;
      while node != null
        invariant |locator| < maxEntries
        invariant node != null && LocatorPlace(first, node, |locator|, step)
        invariant forall i :: 0 <= i < |locator| ==> locator[i] == LocatorEntry(first, i)
        decreases maxEntries - |locator|
      {
        LocatorMove(first.height, |locator|, step);
        locator := locator + [node.header.hash];
        if node.height == 0 {
          break;
        }
        node, step := LocatorAdvance(first, node, |locator|, step);
      }
    }

    /** The loop stands at entry c; the step is right unless it will not be used. */
    ghost predicate LocatorPlace(first: BlockNode, node: BlockNode, c: nat, step: int) {
      && OnBranch(node, first) && node.height == LocatorHeight(first.height, c)
      && (node.height > 0 ==> step == Gap(c))
    }

    /** The body of the loop after `count` entries have been added. */
    method LocatorAdvance(ghost first: BlockNode, node: BlockNode, count: nat, step: int)
      returns (next: BlockNode, newStep: int)
      requires Valid() && first.height <= MAX_INT32
      requires 0 < count <= LocatorLength(first.height)
      requires LocatorPlace(first, node, count - 1, step) && node.height > 0
      ensures LocatorPlace(first, next, count, newStep)
    {
      LocatorMove(first.height, count - 1, step);
      var height := node.height - step;
      if height < 0 {
        height := 0;
      }
      BranchWalk(node, first, height);
      next := AncestorInView(node, height);
      newStep := step;
      if count > 10 {
        newStep := Wrap32(step * 2);
      }
    }
  }

  /** One iteration of the locator loop, in heights; a step that overflows is never used. */
  lemma LocatorMove(h: nat, c: nat, step: int)
    requires h <= MAX_INT32 && c < LocatorLength(h)
    requires LocatorHeight(h, c) > 0 ==> step == Gap(c)
    ensures LocatorHeight(h, c) == 0 <==> c + 1 == LocatorLength(h)
    ensures LocatorHeight(h, c) > 0 ==>
              LocatorHeight(h, c + 1) == if LocatorHeight(h, c) - step < 0 then 0 else LocatorHeight(h, c) - step
    ensures LocatorHeight(h, c + 1) > 0 ==> Gap(c + 1) == if c + 1 > 10 then Wrap32(step * 2) else step
  {
    LocatorEnds(h, c);
    LocatorEnds(h, c + 1);
    OffsetStep(c);
  }

  /** The heights listed by a locator strictly decrease and end at genesis. */
  lemma LocatorHeightsDecrease(h: nat, i: nat)
    requires i < LocatorLength(h)
    ensures i + 1 < LocatorLength(h) ==> LocatorHeight(h, i + 1) < LocatorHeight(h, i)
    ensures LocatorHeight(h, i) == 0 <==> i == LocatorLength(h) - 1
  {
    LocatorEnds(h, i);
    LocatorEnds(h, i + 1);
    OffsetStep(i);
  }
}
