/**
 * What a rescan registers against what a client would watch that was registered while the same blocks
 * were connected (btcd/rpcwebsocket.go).
 */
module RescanLive {
  import Notifications
  import opened Subscriptions
  import opened Rescan
  import opened RescanChains

  // ---------------------------------------------------------------- the same blocks

  /** What a client watches after these blocks were connected one by one. */
  ghost function LiveAfter(w: Watch, a: Listen, blocks: seq<Block>): Watch {
    if blocks == [] then w
    else AfterBlock(LiveAfter(w, a, blocks[..|blocks| - 1]), a, AsTxs(blocks[|blocks| - 1].txs))
  }

  ghost function AllTxs(blocks: seq<Block>): seq<Transaction> {
    if blocks == [] then [] else AllTxs(blocks[..|blocks| - 1]) + blocks[|blocks| - 1].txs
  }

  lemma {:induction false} RescanInTwo(unspent: set<OutPoint>, addrs: set<Addr>, a: seq<Transaction>,
                                       b: seq<Transaction>)
    ensures AfterTransactions(unspent, addrs, a + b) ==
            AfterTransactions(AfterTransactions(unspent, addrs, a), addrs, b)
    decreases |b|
  {
    if b == [] {
      assert a + b == a;
    } else {
      assert (a + b)[..|a + b| - 1] == a + b[..|b| - 1];
      RescanInTwo(unspent, addrs, a, b[..|b| - 1]);
    }
  }

  lemma {:induction false} LiveInTwo(unspent: set<OutPoint>, addrs: set<Addr>, a: seq<Transaction>, b: seq<Transaction>)
    ensures LiveTransactions(unspent, addrs, a + b) == LiveTransactions(LiveTransactions(unspent, addrs, a), addrs, b)
    decreases |b|
  {
    if b == [] {
      assert a + b == a;
    } else {
      assert (a + b)[..|a + b| - 1] == a + b[..|b| - 1];
      LiveInTwo(unspent, addrs, a, b[..|b| - 1]);
    }
  }

  lemma {:induction false} BlocksAreTransactions(unspent: set<OutPoint>, addrs: set<Addr>, blocks: seq<Block>, c: nat)
    ensures AfterBlocks(unspent, addrs, blocks) == AfterTransactions(unspent, addrs, AllTxs(blocks))
    ensures LiveAfter(For(unspent, c), For(addrs, c), blocks) ==
            For(LiveTransactions(unspent, addrs, AllTxs(blocks)), c)
  {
    if blocks != [] {
      var init, last := blocks[..|blocks| - 1], blocks[|blocks| - 1];
      BlocksAreTransactions(unspent, addrs, init, c);
      RescanInTwo(unspent, addrs, AllTxs(init), last.txs);
      LiveInTwo(unspent, addrs, AllTxs(init), last.txs);
      LiveTransactionsAre(LiveTransactions(unspent, addrs, AllTxs(init)), addrs, last.txs, c);
    }
  }

  /** At every transaction of these blocks the two names of what it pays agree. */
  ghost predicate NamesAgree(unspent: set<OutPoint>, addrs: set<Addr>, txs: seq<Transaction>) {
    forall i :: 0 <= i < |txs| ==> OutputsAgree(AfterTransactions(unspent, addrs, txs[..i]), addrs, txs[i])
  }

  /** Where the names agree, a rescan registers exactly what connecting the same blocks leaves watched. */
  lemma RescanMatchesConnecting(unspent: set<OutPoint>, addrs: set<Addr>, blocks: seq<Block>, c: nat)
    requires NamesAgree(unspent, addrs, AllTxs(blocks))
    ensures LiveAfter(For(unspent, c), For(addrs, c), blocks) == For(AfterBlocks(unspent, addrs, blocks), c)
  {
    var txs := AllTxs(blocks);
    BlocksAreTransactions(unspent, addrs, blocks, c);
    AgreeSoFar(unspent, addrs, txs, |txs|);
    assert txs[..|txs|] == txs;
  }

  // ---------------------------------------------------------------- what is told

  /** Some input's script redeems a watched address. */
  predicate RedeemsAddress(addrs: set<Addr>, tx: Transaction) {
    exists i :: 0 <= i < |tx.ins| && tx.ins[i].redeems.Some? && tx.ins[i].redeems.value in addrs
  }

  /** A rescan tells of a spend exactly if live notification does, or if an input redeems a watched address. */
  lemma RedeemingAgrees(unspent: set<OutPoint>, addrs: set<Addr>, tx: Transaction, c: nat)
    ensures Redeeming(tx) in TransactionNotes(unspent, addrs, tx) <==>
            c in Notifications.Watchers(For(unspent, c), AsTx(tx).ins) || RedeemsAddress(addrs, tx)
  {
    var ops := Ops(tx.ins);
    if exists op :: op in ops && (op, c) in For(unspent, c) {
      var op :| op in ops && (op, c) in For(unspent, c);
      var i :| 0 <= i < |ops| && ops[i] == op;
      assert Matches(unspent, addrs, tx.ins[i]);
    }
    if RedeemsAddress(addrs, tx) {
      var i :| 0 <= i < |tx.ins| && tx.ins[i].redeems.Some? && tx.ins[i].redeems.value in addrs;
      assert Matches(unspent, addrs, tx.ins[i]);
    }
    if Redeems(unspent, addrs, tx.ins) {
      var i :| 0 <= i < |tx.ins| && Matches(unspent, addrs, tx.ins[i]);
      assert ops[i] in ops && ops[i] == tx.ins[i].op;
      assert tx.ins[i].op in unspent ==> (ops[i], c) in For(unspent, c);
    }
  }

  /** So at every transaction of a block, where the names agree. */
  lemma BlockRedeemingAgrees(unspent: set<OutPoint>, addrs: set<Addr>, txs: seq<Transaction>, i: nat, c: nat)
    requires NamesAgree(unspent, addrs, txs) && i < |txs|
    ensures var live := AfterBlock(For(unspent, c), For(addrs, c), AsTxs(txs[..i]));
            Redeeming(txs[i]) in TransactionNotes(AfterTransactions(unspent, addrs, txs[..i]), addrs, txs[i]) <==>
            c in Notifications.Watchers(live, AsTx(txs[i]).ins) || RedeemsAddress(addrs, txs[i])
  {
    AgreeSoFar(unspent, addrs, txs, i);
    LiveTransactionsAre(unspent, addrs, txs[..i], c);
    RedeemingAgrees(AfterTransactions(unspent, addrs, txs[..i]), addrs, txs[i], c);
  }

  /** Of a payment it tells exactly if live notification does, where every output's names agree. */
  lemma ReceivedAgrees(unspent: set<OutPoint>, addrs: set<Addr>, tx: Transaction, c: nat)
    requires forall i :: 0 <= i < |tx.outs| ==> (PaysWatched(addrs, tx.outs[i]) <==> PaysEncoded(addrs, tx.outs[i]))
    ensures Received(tx) in TransactionNotes(unspent, addrs, tx) <==>
            c in Notifications.Payees(For(addrs, c), AsTx(tx).outs)
  {
    var outs := EncodedOuts(tx.outs);
    forall i: nat | i < |tx.outs|
      ensures PaysAny(For(addrs, c), outs[i], c) <==> PaysWatched(addrs, tx.outs[i])
    {
      PaysForOne(addrs, tx, OutPoint(tx.hash, i), c, c);
      assert Pays(For(addrs, c), AsTx(tx), OutPoint(tx.hash, i), c) <==> PaysAny(For(addrs, c), outs[i], c);
    }
    if Receives(addrs, tx.hash, tx.outs) != {} {
      var op :| op in Receives(addrs, tx.hash, tx.outs);
      var i: nat :| i < |tx.outs| && PaysWatched(addrs, tx.outs[i]) && op == OutPoint(tx.hash, i);
    }
    if c in Notifications.Payees(For(addrs, c), outs) {
      var i: nat :| i < |outs| && PaysAny(For(addrs, c), outs[i], c);
      assert OutPoint(tx.hash, i) in Receives(addrs, tx.hash, tx.outs);
    }
  }

  // ---------------------------------------------------------------- with mempool transactions in between

  datatype Event = Connect(block: Block) | Accept(tx: Transaction)

  ghost function LiveThrough(w: Watch, a: Listen, events: seq<Event>): Watch {
    if events == [] then w
    else
      var before := LiveThrough(w, a, events[..|events| - 1]);
      match events[|events| - 1]
      case Connect(block) => AfterBlock(before, a, AsTxs(block.txs))
      case Accept(tx) => AfterTx(before, a, AsTx(tx), false)
  }

  ghost function Connected(events: seq<Event>): seq<Block> {
    if events == [] then []
    else
      Connected(events[..|events| - 1])
      + match events[|events| - 1] case Connect(block) => [block] case Accept(_) => []
  }

  /** Some accepted transaction pays this output to the client. */
  ghost predicate PaidByMempool(a: Listen, events: seq<Event>, op: OutPoint, c: nat) {
    exists i :: 0 <= i < |events| && events[i].Accept? && Pays(a, AsTx(events[i].tx), op, c)
  }

  /** Connecting a block keeps an order between what is watched. */
  lemma {:induction false} BlockIsMonotone(w: Watch, w': Watch, a: Listen, txs: seq<Tx>)
    requires w <= w'
    ensures AfterBlock(w, a, txs) <= AfterBlock(w', a, txs)
    ensures AfterBlock(w', a, txs) - AfterBlock(w, a, txs) <= w' - w
  {
    if txs != [] {
      BlockIsMonotone(w, w', a, txs[..|txs| - 1]);
    }
  }

  /**
   * A client that is registered all along also sees the mempool: it watches all that connecting the
   * blocks leaves watched, and besides only outputs of transactions that the mempool accepted.
   */
  lemma {:induction false} LiveWatchesMore(w: Watch, a: Listen, events: seq<Event>)
    ensures LiveAfter(w, a, Connected(events)) <= LiveThrough(w, a, events)
    ensures forall p :: p in LiveThrough(w, a, events) - LiveAfter(w, a, Connected(events)) ==>
              PaidByMempool(a, events, p.0, p.1)
  {
    if events != [] {
      var n := |events| - 1;
      var init := events[..n];
      LiveWatchesMore(w, a, init);
      var blocks, all := Connected(init), LiveThrough(w, a, init);
      forall p | p in all - LiveAfter(w, a, blocks)
        ensures PaidByMempool(a, events, p.0, p.1)
      {
        var i :| 0 <= i < |init| && init[i].Accept? && Pays(a, AsTx(init[i].tx), p.0, p.1);
        assert events[i] == init[i];
      }
      match events[n]
      case Connect(block) =>
        assert (blocks + [block])[..|blocks|] == blocks;
        BlockIsMonotone(LiveAfter(w, a, blocks), all, a, AsTxs(block.txs));
      case Accept(tx) =>
        assert blocks + [] == blocks;
    }
  }
}
