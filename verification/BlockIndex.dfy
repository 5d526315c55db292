/**
 * The in-memory index of the block tree (btcd/blockchain/blockindex.go) and the step that
 * grows it (btcd/blockchain/accept.go).
 */
module BlockIndexes {
  import opened Iteration
  import opened BlockTree
  import opened ChainViews

  datatype AcceptError = PreviousBlockUnknown | InvalidAncestorBlock | ContextRejected | StoreFailed | FlushFailed

  datatype Accept = Accepted(node: BlockNode) | Rejected(error: AcceptError)

  /** blockNode.Equals: every field but the parent and the skip pointer. */
  predicate SameFields(a: BlockNode, b: BlockNode)
    reads a, b
  {
    && a.header == b.header
    && a.workSum == b.workSum
    && a.height == b.height
    && a.status == b.status
  }

  class BlockIndex {
    var index: map<Hash, BlockNode>
    var dirty: set<BlockNode>

    /** Every node is built, filed under its own hash, and its parent is in the index. */
    ghost predicate Valid()
      reads this
    {
      forall h :: h in index ==>
        && index[h].header.hash == h
        && index[h].Built()
        && index[h].height <= MAX_INT32
        && (index[h].parent != null ==> Holds(index[h].parent))
    }

    /** The node itself, not just one with its hash, is in the index. */
    predicate Holds(n: BlockNode)
      reads this
    {
      n.header.hash in index && index[n.header.hash] == n
    }

    /** newBlockIndex */
    constructor ()
      ensures Valid() && index == map[] && dirty == {}
    {
      index := map[];
      dirty := {};
    }

    /** AddNode; the caller must not add a hash twice. */
    method AddNode(node: BlockNode)
      requires Valid() && node.Built() && node.height <= MAX_INT32
      requires node.header.hash !in index
      requires node.parent != null ==> Holds(node.parent)
      modifies this
      ensures Valid()
      ensures index == old(index)[node.header.hash := node]
      ensures dirty == old(dirty) + {node}
    {
      index := index[node.header.hash := node];
      dirty := dirty + {node};
      forall h | h in index && index[h].parent != null
        ensures Holds(index[h].parent)
      {
        assert h != node.header.hash ==> h in old(index) && old(index)[h] == index[h];
      }
    }

    /** SetStatusFlags */
    method SetStatusFlags(node: BlockNode, flags: BlockStatus)
      requires Valid()
      modifies this`dirty, node`status
      ensures Valid()
      ensures node.status == old(node.status) | flags
      ensures dirty == old(dirty) + {node}
    {
      node.status := node.status | flags;
      dirty := dirty + {node};
    }

    /**
     * maybeAcceptBlock up to connectBestChain.  The outcomes of the context check, of storing
     * the block and of flushing the index are inputs.  A failed flush reports an error but
     * leaves the node in the index.
     */
    method MaybeAcceptBlock(header: Header, contextOk: bool, storeOk: bool, flushOk: bool) returns (r: Accept)
      requires Valid() && header.hash !in index
      requires header.prevBlock in index ==> index[header.prevBlock].height < MAX_INT32
      modifies this
      ensures Valid()
      ensures header.prevBlock !in old(index) ==> r == Rejected(PreviousBlockUnknown)
      ensures header.prevBlock in old(index) && old(KnownInvalid(index[header.prevBlock].status)) ==>
                r == Rejected(InvalidAncestorBlock)
      ensures r.Rejected? && r.error != FlushFailed ==> index == old(index) && dirty == old(dirty)
      ensures r.Accepted? || r == Rejected(FlushFailed) ==>
                && header.prevBlock in old(index)
                && header.hash in index
                && index == old(index)[header.hash := index[header.hash]]
                && fresh(index[header.hash])
                && index[header.hash].parent == old(index)[header.prevBlock]
                && index[header.hash].header == header
                && index[header.hash].status == STATUS_DATA_STORED
      ensures r.Accepted? ==> r.node == index[header.hash] && dirty == {}
      ensures r == Rejected(FlushFailed) ==> dirty == old(dirty) + {index[header.hash]}
      ensures r.Accepted? <==>
                && header.prevBlock in old(index)
                && !old(KnownInvalid(index[header.prevBlock].status))
                && contextOk && storeOk && flushOk
    {
      if header.prevBlock !in index {
        return Rejected(PreviousBlockUnknown);
      }
      var prevNode := index[header.prevBlock];
      if KnownInvalid(prevNode.status) {
        return Rejected(InvalidAncestorBlock);
      }
      if !contextOk {
        return Rejected(ContextRejected);
      }
      if !storeOk {
        return Rejected(StoreFailed);
      }
      var newNode := new BlockNode(header, prevNode);
      newNode.status := STATUS_DATA_STORED;
      AddNode(newNode);
      if !flushOk {
        return Rejected(FlushFailed);
      }
      dirty := {};
      return Accepted(newNode);
    }

    /** Every ancestor of an indexed node is indexed. */
    lemma {:induction false} AncestorsIndexed(n: BlockNode, h: nat)
      requires Valid() && Holds(n) && h <= n.height
      ensures Holds(n.Walk(h))
      decreases n.height
    {
      if h < n.height {
        AncestorsIndexed(n.parent, h);
      }
    }

    /** IsAncestor compares fields, yet among indexed nodes it decides true proper ancestry. */
    method IsAncestor(node: BlockNode, other: BlockNode?) returns (r: bool)
      requires Valid() && Holds(node) && (other != null ==> Holds(other))
      ensures r <==> other != null && other != node && other in node.Chain()
    {
      if other == null {
        return false;
      }
      var ancestor, _ := node.Ancestor(other.height);
      if ancestor == null {
        ChainHeights(node);
        return false;
      }
      AncestorsIndexed(node, other.height);
      ChainHeights(node);
      ChainAt(node, other.height);
      if node.height == ancestor.height {
        return false;
      }
      return SameFields(ancestor, other);
    }

    /** An indexed node outside the view with no child in the index. */
    ghost predicate IsInactiveTip(view: ChainView, n: BlockNode)
      requires view.Bounded()
      reads this, view, view.backing
    {
      Holds(n) && !view.Contains(n) && forall h :: h in index ==> index[h].parent != n
    }

    /** A node of the view has its parent in the view. */
    lemma ViewHoldsParents(view: ChainView, n: BlockNode)
      requires view.Valid() && view.Contains(n) && n.parent != null && n.Rooted()
      ensures view.Contains(n.parent)
    {
      var tip := view.Tip();
      ChainAt(tip, n.height);
      ChainAt(tip, n.height - 1);
      WalkThrough(tip, n.height, n.height - 1);
    }

    /**
     * InactiveTips: exactly the childless indexed nodes outside the view, each once.  Nodes
     * without a parent must be in the view, or the source would follow a nil parent.
     */
    method InactiveTips(view: ChainView) returns (tips: seq<BlockNode>)
      requires Valid() && view.Valid() && RootsInView(view)
      ensures forall n :: n in tips <==> IsInactiveTip(view, n)
      ensures forall i, j :: 0 <= i < j < |tips| ==> tips[i] != tips[j]
    {
      var orphans, orphanParent := CollectOrphans(view);
      forall h | h in orphans
        ensures h in orphanParent <==> !IsInactiveTip(view, index[h])
      {
        OrphanIsTip(view, h, orphans, orphanParent);
      }
      tips := PickTips(view, orphans, orphanParent);
    }

    ghost predicate RootsInView(view: ChainView)
      requires view.Bounded()
      reads this, view, view.backing
    {
      forall h :: h in index && index[h].parent == null ==> view.Contains(index[h])
    }

    ghost function Outside(view: ChainView): set<Hash>
      requires view.Bounded()
      reads this, view, view.backing
    {
      set h | h in index && !view.Contains(index[h])
    }

    /** The first loop: the nodes outside the view, and the parents they point to. */
    method CollectOrphans(view: ChainView) returns (orphans: set<Hash>, orphanParent: set<Hash>)
      requires view.Bounded() && RootsInView(view)
      ensures orphans == Outside(view) && ParentsOf(orphans, orphanParent)
    {
      orphans, orphanParent := {}, {};
      ghost var outside := Outside(view);
      var rest := index.Keys;
      VisitedNone(outside, rest);
      while rest != {}
        invariant rest <= index.Keys && orphans == outside - rest
        invariant ParentsOf(orphans, orphanParent)
        decreases |rest|
      {
        var h := Pick(rest);
        VisitedMore(outside, rest, h);
        orphans, orphanParent := VisitNode(view, h, outside, orphans, orphanParent);
        rest := rest - {h};
      }
      VisitedAll(outside, rest);
    }

    lemma VisitedNone(outside: set<Hash>, rest: set<Hash>)
      requires outside <= rest
      ensures outside - rest == {}
    {
    }

    lemma VisitedAll(outside: set<Hash>, rest: set<Hash>)
      requires rest == {}
      ensures outside - rest == outside
    {
    }

    lemma VisitedMore(outside: set<Hash>, rest: set<Hash>, h: Hash)
      requires h in rest
      ensures outside - rest + (if h in outside then {h} else {}) == outside - (rest - {h})
    {
    }

    method VisitNode(view: ChainView, h: Hash, ghost outside: set<Hash>, orphans0: set<Hash>,
                     orphanParent0: set<Hash>)
      returns (orphans: set<Hash>, orphanParent: set<Hash>)
      requires view.Bounded() && RootsInView(view) && h in index
      requires ParentsOf(orphans0, orphanParent0) && outside == Outside(view)
      ensures orphans == orphans0 + if h in outside then {h} else {}
      ensures ParentsOf(orphans, orphanParent)
    {
      orphans, orphanParent := orphans0, orphanParent0;
      var node := index[h];
      if !view.Contains(node) {
        ParentsOfAdd(orphans, orphanParent, h);
        orphans := orphans + {h};
        orphanParent := orphanParent + {node.parent.header.hash};
      }
    }

    /** The tips among the nodes with these hashes, each once. */
    ghost predicate TipsAmong(view: ChainView, hashes: set<Hash>, tips: seq<BlockNode>)
      requires view.Bounded()
      reads this, view, view.backing
    {
      && (forall n :: n in tips ==> n.header.hash in hashes && IsInactiveTip(view, n))
      && (forall h :: h in hashes && h in index && IsInactiveTip(view, index[h]) ==> index[h] in tips)
      && (forall i, j :: 0 <= i < j < |tips| ==> tips[i] != tips[j])
    }

    lemma TipsMore(view: ChainView, hashes: set<Hash>, tips: seq<BlockNode>, h: Hash)
      requires Valid() && view.Bounded() && TipsAmong(view, hashes, tips) && h !in hashes && h in index
      ensures TipsAmong(view, hashes + {h}, if IsInactiveTip(view, index[h]) then tips + [index[h]] else tips)
    {
      assert index[h].header.hash == h;
    }

    /** The second loop: keep the orphans that no orphan points to. */
    method PickTips(view: ChainView, orphans: set<Hash>, orphanParent: set<Hash>) returns (tips: seq<BlockNode>)
      requires Valid() && view.Bounded() && orphans == Outside(view)
      requires forall h :: h in orphans ==> (h in orphanParent <==> !IsInactiveTip(view, index[h]))
      ensures TipsAmong(view, orphans, tips)
    {
      tips := [];
      var left := orphans;
      var parents := orphanParent;
      while left != {}
        invariant left <= orphans
        invariant forall k :: k in left ==> (k in parents <==> k in orphanParent)
        invariant TipsAmong(view, orphans - left, tips)
        decreases |left|
      {
        var h := Pick(left);
        TipsMore(view, orphans - left, tips, h);
        assert orphans - left + {h} == orphans - (left - {h});
        left := left - {h};
        if h !in parents {
          tips := tips + [index[h]];
        }
        parents := parents - {h};
      }
      assert orphans - left == orphans;
    }

    lemma ParentsOfAdd(orphans: set<Hash>, orphanParent: set<Hash>, h: Hash)
      requires ParentsOf(orphans, orphanParent) && h in index && index[h].parent != null
      ensures ParentsOf(orphans + {h}, orphanParent + {ParentHash(h)})
    {
    }

    ghost function ParentHashes(hashes: set<Hash>): set<Hash>
      reads this
    {
      set c | c in hashes :: ParentHash(c)
    }

    /** orphanParent holds exactly the parent hashes of the orphans. */
    ghost predicate ParentsOf(orphans: set<Hash>, orphanParent: set<Hash>)
      reads this
    {
      orphanParent == ParentHashes(orphans) && forall c :: c in orphans ==> c in index && index[c].parent != null
    }

    ghost function ParentHash(h: Hash): Hash
      reads this
    {
      if h in index && index[h].parent != null then index[h].parent.header.hash else 0
    }

    /** An orphan is a tip exactly when no orphan points to it. */
    lemma OrphanIsTip(view: ChainView, h: Hash, orphans: set<Hash>, orphanParent: set<Hash>)
      requires Valid() && view.Valid() && h in orphans
      requires orphans == Outside(view)
      requires ParentsOf(orphans, orphanParent)
      ensures h in orphanParent <==> !IsInactiveTip(view, index[h])
    {
      var n := index[h];
      if h in orphanParent {
        var c :| c in orphans && ParentHash(c) == h;
        assert index[c].parent == n;
      } else {
        forall c | c in index
          ensures index[c].parent != n
        {
          if index[c].parent == n {
            assert ParentHash(c) == h;
            if view.Contains(index[c]) {
              ViewHoldsParents(view, index[c]);
            }
          }
        }
      }
    }
  }
}
