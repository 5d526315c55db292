/**
 * Block nodes and their ancestry (btcd/blockchain/blockindex.go).
 *
 * Every field of a node but its status is written once, when the node is initialised, so
 * those fields are constants here.  A block hash is an opaque number, and the difficulty
 * bits of a header appear only through the work they stand for.
 */
module BlockTree {
  import opened SkipWalk

  type Hash = int

  const MAX_INT32 := 0x7fff_ffff

  /** Two's complement truncation to 32 bits. */
  function Wrap32(x: int): (r: int)
    ensures -0x8000_0000 <= r <= 0x7fff_ffff
    ensures -0x8000_0000 <= x <= 0x7fff_ffff ==> r == x
    ensures 0x7fff_ffff < x < 0x1_0000_0000 ==> r < 0
  {
    (x + 0x8000_0000) % 0x1_0000_0000 - 0x8000_0000
  }

  type BlockStatus = bv8
  const STATUS_DATA_STORED: BlockStatus := 1
  const STATUS_VALID: BlockStatus := 2
  const STATUS_VALIDATE_FAILED: BlockStatus := 4
  const STATUS_INVALID_ANCESTOR: BlockStatus := 8

  predicate KnownInvalid(status: BlockStatus) {
    status & (STATUS_VALIDATE_FAILED | STATUS_INVALID_ANCESTOR) != 0
  }

  datatype Header = Header(hash: Hash, prevBlock: Hash, work: nat, version: int, nonce: nat, timestamp: int,
                           merkleRoot: Hash)

  class BlockNode {
    const parent: BlockNode?
    const ancestor: BlockNode?
    const header: Header
    const workSum: nat
    const height: nat
    var status: BlockStatus

    /** Following parents ends at a node of height zero, one height at a time. */
    ghost predicate Rooted()
      decreases height
    {
      && (parent == null ==> height == 0)
      && (parent != null ==> parent.height + 1 == height && parent.Rooted())
    }

    /** The plain walk: follow parents until the height is met. */
    ghost function Walk(h: int): (r: BlockNode?)
      requires Rooted()
      ensures r != null <==> 0 <= h <= height
      ensures r != null ==> r.height == h && r.Rooted()
      decreases height
    {
      if h == height then this
      else if parent == null then null
      else parent.Walk(h)
    }

    /** The nodes from genesis to this one. */
    ghost function Chain(): (s: seq<BlockNode>)
      requires Rooted()
      ensures |s| == height + 1 && s[height] == this
      decreases height
    {
      (if parent == null then [] else parent.Chain()) + [this]
    }

    /** What initBlockNode makes: work summed along the parents, and a true skip pointer. */
    ghost predicate Built()
      ensures Built() ==> Rooted()
      decreases height
    {
      && Rooted()
      && (parent == null ==> ancestor == null && workSum == header.work)
      && (parent != null ==>
            && parent.Built()
            && workSum == parent.workSum + header.work
            && ancestor == parent.Walk(GetAncestorHeight(height)))
    }

    /** initBlockNode, with buildAncestor. */
    constructor (header: Header, parent: BlockNode?)
      requires parent != null ==> parent.Built() && parent.height < MAX_INT32
      ensures this.header == header && this.parent == parent && status == 0
      ensures Built()
    {
      this.header := header;
      this.parent := parent;
      this.status := 0;
      if parent == null {
        this.height := 0;
        this.workSum := header.work;
        this.ancestor := null;
      } else {
        var h := parent.height + 1;
        var a, _ := parent.Ancestor(GetAncestorHeight(h));
        this.height := h;
        this.workSum := parent.workSum + header.work;
        this.ancestor := a;
      }
    }

    /**
     * The skip-list walk.  It is the plain walk, null exactly out of range, and the number
     * of loop iterations is at most the square of the bit length of the node's height.
     */
    method Ancestor(h: int) returns (r: BlockNode?, ghost steps: nat)
      requires Built()
      ensures r == Walk(h)
      ensures r != null ==> r.Built()
      ensures 0 <= h <= height ==> steps == WalkSteps(GetAncestorHeight, height, h)
      ensures steps <= BitLength(height) * BitLength(height)
      decreases height
    {
      steps := 0;
      if h < 0 || h > height {
        return null, 0;
      }
      var n: BlockNode? := this;
      while n != null && n.height != h
        invariant n != null && n.Built() && h <= n.height
        invariant n.Walk(h) == Walk(h)
        invariant steps + WalkSteps(GetAncestorHeight, n.height, h) == WalkSteps(GetAncestorHeight, height, h)
        decreases if n == null then 0 else n.height
      {
        WalkOnce(n, h);
        steps := steps + 1;
        if n.ancestor != null {
          if GetAncestorHeight(n.height) >= h {
            n := n.ancestor;
            continue;
          }
        }
        n := n.parent;
      }
      WalkIsQuadraticInBits(height, h);
      return n, steps;
    }

    /** RelativeAncestor: 32-bit overflow of the difference cannot change the answer. */
    method RelativeAncestor(distance: int) returns (r: BlockNode?)
      requires Built() && height <= MAX_INT32
      requires -0x8000_0000 <= distance <= MAX_INT32
      ensures r == Walk(height - distance)
      ensures r != null <==> 0 <= distance <= height
    {
      ghost var steps;
      r, steps := Ancestor(Wrap32(height - distance));
    }
  }

  /** One iteration of Ancestor keeps to the plain walk and follows NextHeight. */
  lemma WalkOnce(n: BlockNode, h: nat)
    requires n.Built() && h < n.height
    ensures n.parent != null && n.parent.Built() && n.parent.height == n.height - 1 && n.parent.Walk(h) == n.Walk(h)
    ensures n.ancestor != null && n.ancestor.height == GetAncestorHeight(n.height) < n.height
    ensures h <= n.ancestor.height ==> n.ancestor.Built() && n.ancestor.Walk(h) == n.Walk(h)
    ensures var next := if h <= n.ancestor.height then n.ancestor.height else n.height - 1;
      WalkSteps(GetAncestorHeight, n.height, h) == 1 + WalkSteps(GetAncestorHeight, next, h)
  {
    AncestorHeightLess(n.height);
    if h <= GetAncestorHeight(n.height) {
      WalkThrough(n.parent, GetAncestorHeight(n.height), h);
    }
  }

  /** Walking to a lower height may stop anywhere on the way. */
  lemma {:induction false} WalkThrough(n: BlockNode, mid: int, h: int)
    requires n.Built() && 0 <= h <= mid <= n.height
    ensures n.Walk(mid).Built()
    ensures n.Walk(mid).Walk(h) == n.Walk(h)
    decreases n.height
  {
    if n.height != mid {
      WalkThrough(n.parent, mid, h);
    }
  }

  /** The chain lists the plain walk height by height, and its prefixes are chains. */
  lemma {:induction false} ChainAt(n: BlockNode, i: nat)
    requires n.Rooted() && i <= n.height
    ensures n.Chain()[i] == n.Walk(i)
    ensures n.Chain()[..i + 1] == n.Walk(i).Chain()
    decreases n.height
  {
    if i == n.height {
      assert n.Chain()[..i + 1] == n.Chain();
    } else {
      ChainAt(n.parent, i);
      assert n.Chain()[..i + 1] == n.parent.Chain()[..i + 1];
    }
  }

  lemma ChainHeights(n: BlockNode)
    requires n.Rooted()
    ensures forall i :: 0 <= i <= n.height ==> n.Chain()[i].Rooted() && n.Chain()[i].height == i
  {
    forall i | 0 <= i <= n.height
      ensures n.Chain()[i].Rooted() && n.Chain()[i].height == i
    {
      ChainAt(n, i);
    }
  }

  lemma {:induction false} ChainBuilt(n: BlockNode, i: nat)
    requires n.Built() && i <= n.height
    ensures n.Chain()[i].Built()
    decreases n.height
  {
    if i < n.height {
      ChainBuilt(n.parent, i);
    }
  }

  ghost function TotalWork(s: seq<BlockNode>): nat {
    if s == [] then 0 else TotalWork(s[..|s| - 1]) + s[|s| - 1].header.work
  }

  /** workSum is the work of every block from genesis to the node. */
  lemma {:induction false} WorkSumIsTotal(n: BlockNode)
    requires n.Built()
    ensures n.workSum == TotalWork(n.Chain())
    decreases n.height
  {
    if n.parent != null {
      WorkSumIsTotal(n.parent);
      assert n.Chain()[..n.height] == n.parent.Chain();
    } else {
      assert n.Chain() == [n];
    }
  }
}
