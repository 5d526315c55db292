/**
 * The subscription tables of the websocket notification manager (btcd/rpcwebsocket.go).  A client
 * is named by its quit channel; the request sets that each client carries are kept by name.
 * Marshalling always succeeds, and the addresses an output pays are given with the output.
 */
module Subscriptions {
  import opened Iteration

  type Client = nat
  type Addr = nat
  type Hash = nat

  datatype OutPoint = OutPoint(hash: Hash, index: nat)

  datatype Tx = Tx(hash: Hash, ins: seq<OutPoint>, outs: seq<seq<Addr>>)

  // ---------------------------------------------------------------- a two-way index

  /** Who is interested in a key, and what a client is interested in. */
  datatype Index<K> = Index(byKey: map<K, set<Client>>, byClient: map<Client, set<K>>)

  ghost predicate Has<K>(ix: Index<K>, k: K, c: Client) {
    k in ix.byKey && c in ix.byKey[k]
  }

  /** Both directions say the same, and no key is kept without a client. */
  ghost predicate Consistent<K(!new)>(ix: Index<K>) {
    && (forall k, c :: Has(ix, k, c) <==> c in ix.byClient && k in ix.byClient[c])
    && (forall k :: k in ix.byKey ==> ix.byKey[k] != {})
  }

  ghost function Pairs<K>(ix: Index<K>): set<(K, Client)> {
    set k, c | k in ix.byKey && c in ix.byKey[k] :: (k, c)
  }

  function Clients<K>(ix: Index<K>, k: K): set<Client> {
    if k in ix.byKey then ix.byKey[k] else {}
  }

  function Requests<K>(ix: Index<K>, c: Client): set<K> {
    if c in ix.byClient then ix.byClient[c] else {}
  }

  /** addSpentRequests and addAddrRequests, for one key. */
  function AddPair<K>(ix: Index<K>, k: K, c: Client): Index<K> {
    Index(ix.byKey[k := Clients(ix, k) + {c}], ix.byClient[c := Requests(ix, c) + {k}])
  }

  /** removeSpentRequest and removeAddrRequest. */
  function RemovePair<K>(ix: Index<K>, k: K, c: Client): Index<K> {
    Index(if k !in ix.byKey then ix.byKey
          else if ix.byKey[k] - {c} == {} then ix.byKey - {k}
          else ix.byKey[k := ix.byKey[k] - {c}],
          if c in ix.byClient then ix.byClient[c := ix.byClient[c] - {k}] else ix.byClient)
  }

  lemma PairsAre<K>(ix: Index<K>, k: K, c: Client)
    ensures (k, c) in Pairs(ix) <==> Has(ix, k, c)
  {
  }

  lemma AddPairKeeps<K(!new)>(ix: Index<K>, k: K, c: Client)
    requires Consistent(ix)
    ensures Consistent(AddPair(ix, k, c))
    ensures Pairs(AddPair(ix, k, c)) == Pairs(ix) + {(k, c)}
  {
    var ix' := AddPair(ix, k, c);
    forall j, d
      ensures Has(ix', j, d) <==> Has(ix, j, d) || (j == k && d == c)
      ensures Has(ix', j, d) <==> d in ix'.byClient && j in ix'.byClient[d]
    {
      assert Has(ix, j, d) <==> d in ix.byClient && j in ix.byClient[d];
    }
    assert c in ix'.byKey[k];
  }

  lemma RemovePairKeeps<K(!new)>(ix: Index<K>, k: K, c: Client)
    requires Consistent(ix)
    ensures Consistent(RemovePair(ix, k, c))
    ensures Pairs(RemovePair(ix, k, c)) == Pairs(ix) - {(k, c)}
  {
    var ix' := RemovePair(ix, k, c);
    forall j, d
      ensures Has(ix', j, d) <==> Has(ix, j, d) && !(j == k && d == c)
    {
      RemovePairHas(ix, k, c, j, d);
    }
    forall j, d
      ensures Has(ix', j, d) <==> d in ix'.byClient && j in ix'.byClient[d]
    {
      assert Has(ix, j, d) <==> d in ix.byClient && j in ix.byClient[d];
      assert d in ix'.byClient <==> d in ix.byClient;
    }
    forall p
      ensures p in Pairs(ix') <==> p in Pairs(ix) - {(k, c)}
    {
      PairsAre(ix, p.0, p.1);
      PairsAre(ix', p.0, p.1);
    }
  }

  lemma RemovePairHas<K>(ix: Index<K>, k: K, c: Client, j: K, d: Client)
    ensures Has(RemovePair(ix, k, c), j, d) <==> Has(ix, j, d) && !(j == k && d == c)
  {
    if j == k && k in ix.byKey && ix.byKey[k] - {c} == {} {
      assert d != c ==> (d in ix.byKey[k] <==> d in ix.byKey[k] - {c});
    }
  }

  /** Two consistent indexes with the same pairs answer every question alike. */
  lemma PairsDecide<K(!new)>(a: Index<K>, b: Index<K>)
    requires Consistent(a) && Consistent(b) && Pairs(a) == Pairs(b)
    ensures a.byKey == b.byKey
    ensures forall c :: Requests(a, c) == Requests(b, c)
  {
    forall k, c
      ensures Has(a, k, c) <==> Has(b, k, c)
    {
      PairsAre(a, k, c);
      PairsAre(b, k, c);
    }
    SameKeys(a, b);
    SameKeys(b, a);
    forall k | k in a.byKey
      ensures a.byKey[k] == b.byKey[k]
    {
      forall c
        ensures c in a.byKey[k] <==> c in b.byKey[k]
      {
        assert Has(a, k, c) <==> Has(b, k, c);
      }
    }
    forall c
      ensures Requests(a, c) == Requests(b, c)
    {
      forall k
        ensures k in Requests(a, c) <==> k in Requests(b, c)
      {
        assert Has(a, k, c) <==> Has(b, k, c);
      }
    }
  }

  lemma SameKeys<K(!new)>(a: Index<K>, b: Index<K>)
    requires Consistent(a) && forall k, c :: Has(a, k, c) ==> Has(b, k, c)
    ensures a.byKey.Keys <= b.byKey.Keys
  {
    forall k | k in a.byKey
      ensures k in b.byKey
    {
      var c :| c in a.byKey[k];
      assert Has(a, k, c);
    }
  }

  /** The loops of addSpentRequests and addAddrRequests. */
  method AddAll<K(==, !new)>(ix: Index<K>, ks: seq<K>, c: Client) returns (r: Index<K>)
    requires Consistent(ix)
    ensures Consistent(r)
    ensures forall k, d: Client :: (k, d) in Pairs(r) <==> (k, d) in Pairs(ix) || (k in ks && d == c)
  {
    r := ix;
    for i := 0 to |ks|
      invariant Consistent(r)
      invariant forall k, d: Client :: (k, d) in Pairs(r) <==> (k, d) in Pairs(ix) || (k in ks[..i] && d == c)
    {
      AddPairKeeps(r, ks[i], c);
      r := AddPair(r, ks[i], c);
      assert ks[..i + 1] == ks[..i] + [ks[i]];
    }
    assert ks[..|ks|] == ks;
  }

  /** Dropping every request of a client that disconnects. */
  method Forget<K(==, !new)>(ix: Index<K>, c: Client) returns (r: Index<K>)
    requires Consistent(ix)
    ensures Consistent(r)
    ensures forall k, d: Client :: (k, d) in Pairs(r) <==> (k, d) in Pairs(ix) && d != c
    ensures Requests(r, c) == {}
  {
    r := ix;
    var todo := Requests(ix, c);
    while todo != {}
      invariant Consistent(r)
      invariant todo == Requests(r, c)
      invariant forall k, d: Client :: d != c ==> ((k, d) in Pairs(r) <==> (k, d) in Pairs(ix))
      decreases |todo|
    {
      var k := Pick(todo);
      RemovePairKeeps(r, k, c);
      r := RemovePair(r, k, c);
      todo := todo - {k};
    }
    forall k
      ensures (k, c) !in Pairs(r)
    {
      PairsAre(r, k, c);
      assert Has(r, k, c) <==> c in r.byClient && k in r.byClient[c];
      assert k !in Requests(r, c);
    }
  }

  // ---------------------------------------------------------------- what a transaction changes

  type Watch = set<(OutPoint, Client)>
  type Listen = set<(Addr, Client)>

  /** Output `op` is one of tx's and pays an address that c listens to. */
  ghost predicate Pays(a: Listen, tx: Tx, op: OutPoint, c: Client) {
    op.hash == tx.hash && op.index < |tx.outs| && PaysAny(a, tx.outs[op.index], c)
  }

  ghost predicate PaysAny(a: Listen, to: seq<Addr>, c: Client) {
    exists addr :: addr in to && (addr, c) in a
  }

  ghost function Paid(a: Listen, tx: Tx): (r: Watch)
    ensures forall op, c: Client :: (op, c) in r <==> Pays(a, tx, op, c)
  {
    var r := set i, p | 0 <= i < |tx.outs| && p in a && PaysAny(a, tx.outs[i], p.1) :: (OutPoint(tx.hash, i), p.1);
    assert forall op, c: Client :: Pays(a, tx, op, c) ==> (op, c) in r by {
      forall op, c: Client | Pays(a, tx, op, c)
        ensures (op, c) in r
      {
        var addr :| addr in tx.outs[op.index] && (addr, c) in a;
        assert (addr, c) in a && op == OutPoint(tx.hash, op.index);
      }
    }
    r
  }

  ghost function Unspent(w: Watch, ins: seq<OutPoint>): Watch {
    set p | p in w && p.0 !in ins
  }

  /** A confirmed transaction releases what it spends. */
  ghost function Released(w: Watch, ins: seq<OutPoint>, confirmed: bool): Watch {
    if confirmed then Unspent(w, ins) else w
  }

  ghost function AfterTx(w: Watch, a: Listen, tx: Tx, confirmed: bool): Watch {
    Released(w, tx.ins, confirmed) + Paid(a, tx)
  }

  ghost function AfterBlock(w: Watch, a: Listen, txs: seq<Tx>): Watch {
    if txs == [] then w
    else AfterTx(AfterBlock(w, a, txs[..|txs| - 1]), a, txs[|txs| - 1], true)
  }

  ghost predicate SpentFrom(txs: seq<Tx>, op: OutPoint, from: nat) {
    exists i :: from <= i < |txs| && op in txs[i].ins
  }

  ghost predicate LeftBy(a: Listen, txs: seq<Tx>, op: OutPoint, c: Client, j: nat) {
    j < |txs| && Pays(a, txs[j], op, c) && !SpentFrom(txs, op, j + 1)
  }

  /** Exactly what is watched after a block: whatever was watched or paid for and not spent since. */
  lemma {:induction false} WatchedAfterBlock(w: Watch, a: Listen, txs: seq<Tx>, op: OutPoint, c: Client)
    ensures (op, c) in AfterBlock(w, a, txs) <==>
            || ((op, c) in w && !SpentFrom(txs, op, 0))
            || (exists j: nat :: LeftBy(a, txs, op, c, j))
  {
    if txs != [] {
      var n := |txs| - 1;
      var init := txs[..n];
      WatchedAfterBlock(w, a, init, op, c);
      forall from: nat | from <= n
        ensures SpentFrom(txs, op, from) <==> SpentFrom(init, op, from) || op in txs[n].ins
      {
      }
      forall j: nat
        ensures LeftBy(a, txs, op, c, j) <==>
                (LeftBy(a, init, op, c, j) && op !in txs[n].ins) || (j == n && Pays(a, txs[n], op, c))
      {
        assert j == n ==> !SpentFrom(txs, op, j + 1);
        assert j < n ==> (SpentFrom(txs, op, j + 1) <==> SpentFrom(init, op, j + 1) || op in txs[n].ins);
      }
      assert LeftBy(a, txs, op, c, n) <==> Pays(a, txs[n], op, c);
      assert SpentFrom(txs, op, 0) <==> SpentFrom(init, op, 0) || op in txs[n].ins;
      assert (op, c) in AfterBlock(w, a, txs) <==>
          ((op, c) in AfterBlock(w, a, init) && op !in txs[n].ins) || Pays(a, txs[n], op, c);
    }
  }

  /** A transaction comes after all those it spends from. */
  ghost predicate InDependencyOrder(txs: seq<Tx>) {
    forall i, j, op :: 0 <= i < |txs| && 0 <= j < |txs| && op in txs[i].ins && op.hash == txs[j].hash ==> j < i
  }

  /** No outpoint spent inside a connected block stays watched. */
  lemma SpentInBlockIsForgotten(w: Watch, a: Listen, txs: seq<Tx>, op: OutPoint, c: Client)
    requires InDependencyOrder(txs)
    requires SpentFrom(txs, op, 0)
    ensures (op, c) !in AfterBlock(w, a, txs)
  {
    WatchedAfterBlock(w, a, txs, op, c);
    forall j: nat
      ensures !LeftBy(a, txs, op, c, j)
    {
      if j < |txs| && Pays(a, txs[j], op, c) {
        var i :| 0 <= i < |txs| && op in txs[i].ins;
        assert op.hash == txs[j].hash;
        assert SpentFrom(txs, op, j + 1);
      }
    }
  }
}
