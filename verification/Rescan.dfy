/**
 * Rescanning the transactions of one block for a client's addresses and unspent outpoints
 * (rescanBlock in btcd/rpcwebsocket.go).  The address an input redeems and those an output pays are
 * given; marshalling succeeds.  A rescan compares addresses as they print, live notification as they
 * encode: a public key prints as itself and encodes as the hash it pays.
 */
module Rescan {
  import opened Subscriptions
  import opened Options

  /** An input and the address its script redeems, if that can be told. */
  datatype Input = Input(op: OutPoint, redeems: Option<Addr>)

  /** An address that an output pays, under both its names. */
  datatype Dest = Dest(encoded: Addr, printed: Addr)

  datatype Transaction = Transaction(hash: Hash, ins: seq<Input>, outs: seq<seq<Dest>>)

  datatype Note = Redeeming(tx: Transaction) | Received(tx: Transaction) | Progress(hash: Hash, height: nat)

  // ---------------------------------------------------------------- the simple fold

  predicate PaysWatched(addrs: set<Addr>, to: seq<Dest>) {
    exists j :: 0 <= j < |to| && to[j].printed in addrs
  }

  function Spends(unspent: set<OutPoint>, ins: seq<Input>): set<OutPoint> {
    set i | 0 <= i < |ins| && ins[i].op in unspent :: ins[i].op
  }

  function Receives(addrs: set<Addr>, hash: Hash, outs: seq<seq<Dest>>): set<OutPoint> {
    set i | 0 <= i < |outs| && PaysWatched(addrs, outs[i]) :: OutPoint(hash, i)
  }

  /** Spent outpoints go, outputs to watched addresses come. */
  function AfterTransaction(unspent: set<OutPoint>, addrs: set<Addr>, tx: Transaction): set<OutPoint> {
    unspent - Spends(unspent, tx.ins) + Receives(addrs, tx.hash, tx.outs)
  }

  function AfterTransactions(unspent: set<OutPoint>, addrs: set<Addr>, txs: seq<Transaction>): set<OutPoint> {
    if txs == [] then unspent
    else AfterTransaction(AfterTransactions(unspent, addrs, txs[..|txs| - 1]), addrs, txs[|txs| - 1])
  }

  /** An input spends a watched outpoint, or redeems a watched address. */
  predicate Matches(unspent: set<OutPoint>, addrs: set<Addr>, input: Input) {
    input.op in unspent || (input.redeems.Some? && input.redeems.value in addrs)
  }

  predicate Redeems(unspent: set<OutPoint>, addrs: set<Addr>, ins: seq<Input>) {
    exists i :: 0 <= i < |ins| && Matches(unspent, addrs, ins[i])
  }

  /** At most one redeemingtx and then at most one recvtx. */
  function TransactionNotes(unspent: set<OutPoint>, addrs: set<Addr>, tx: Transaction): (r: seq<Note>)
    ensures |r| <= 2 && forall i, j :: 0 <= i < j < |r| ==> r[i].Redeeming? && r[j].Received?
  {
    (if Redeems(unspent, addrs, tx.ins) then [Redeeming(tx)] else [])
    + if Receives(addrs, tx.hash, tx.outs) != {} then [Received(tx)] else []
  }

  function Notes(unspent: set<OutPoint>, addrs: set<Addr>, txs: seq<Transaction>): seq<Note> {
    if txs == [] then []
    else
      var init := txs[..|txs| - 1];
      Notes(unspent, addrs, init)
      + TransactionNotes(AfterTransactions(unspent, addrs, init), addrs, txs[|txs| - 1])
  }

  lemma NotesMore(unspent: set<OutPoint>, addrs: set<Addr>, txs: seq<Transaction>, i: nat)
    requires i < |txs|
    ensures Notes(unspent, addrs, txs[..i + 1]) ==
            Notes(unspent, addrs, txs[..i])
            + TransactionNotes(AfterTransactions(unspent, addrs, txs[..i]), addrs, txs[i])
    ensures AfterTransactions(unspent, addrs, txs[..i + 1]) ==
            AfterTransaction(AfterTransactions(unspent, addrs, txs[..i]), addrs, txs[i])
  {
    assert txs[..i + 1][..i] == txs[..i];
  }

  /** What is said of the first transactions is said first. */
  lemma {:induction false} NotesPrefix(unspent: set<OutPoint>, addrs: set<Addr>, txs: seq<Transaction>, i: nat)
    requires i <= |txs|
    ensures Notes(unspent, addrs, txs[..i]) <= Notes(unspent, addrs, txs)
    decreases |txs| - i
  {
    if i == |txs| {
      assert txs[..i] == txs;
    } else {
      NotesMore(unspent, addrs, txs, i);
      NotesPrefix(unspent, addrs, txs, i + 1);
    }
  }

  // ---------------------------------------------------------------- rescan and live notification

  ghost function Ops(ins: seq<Input>): (r: seq<OutPoint>)
    ensures |r| == |ins| && forall i :: 0 <= i < |r| ==> r[i] == ins[i].op
  {
    seq(|ins|, i requires 0 <= i < |ins| => ins[i].op)
  }

  ghost function Encoded(to: seq<Dest>): (r: seq<Addr>)
    ensures |r| == |to| && forall j :: 0 <= j < |r| ==> r[j] == to[j].encoded
  {
    seq(|to|, j requires 0 <= j < |to| => to[j].encoded)
  }

  ghost function EncodedOuts(outs: seq<seq<Dest>>): (r: seq<seq<Addr>>)
    ensures |r| == |outs| && forall i :: 0 <= i < |r| ==> r[i] == Encoded(outs[i])
  {
    seq(|outs|, i requires 0 <= i < |outs| => Encoded(outs[i]))
  }

  /** The transaction as the notification manager sees it. */
  ghost function AsTx(tx: Transaction): Tx {
    Tx(tx.hash, Ops(tx.ins), EncodedOuts(tx.outs))
  }

  ghost function AsTxs(txs: seq<Transaction>): (r: seq<Tx>)
    ensures |r| == |txs| && forall i :: 0 <= i < |r| ==> r[i] == AsTx(txs[i])
  {
    seq(|txs|, i requires 0 <= i < |txs| => AsTx(txs[i]))
  }

  ghost function For<K>(keys: set<K>, c: nat): set<(K, nat)> {
    set k | k in keys :: (k, c)
  }

  predicate PaysEncoded(addrs: set<Addr>, to: seq<Dest>) {
    exists j :: 0 <= j < |to| && to[j].encoded in addrs
  }

  /** What one client watches after a transaction is connected. */
  ghost function LiveTransaction(unspent: set<OutPoint>, addrs: set<Addr>, tx: Transaction): set<OutPoint> {
    unspent - Spends(unspent, tx.ins)
    + set i | 0 <= i < |tx.outs| && PaysEncoded(addrs, tx.outs[i]) :: OutPoint(tx.hash, i)
  }

  ghost function LiveTransactions(unspent: set<OutPoint>, addrs: set<Addr>, txs: seq<Transaction>): set<OutPoint> {
    if txs == [] then unspent
    else LiveTransaction(LiveTransactions(unspent, addrs, txs[..|txs| - 1]), addrs, txs[|txs| - 1])
  }

  lemma LiveTransactionIs(unspent: set<OutPoint>, addrs: set<Addr>, tx: Transaction, c: nat)
    ensures AfterTx(For(unspent, c), For(addrs, c), AsTx(tx), true) == For(LiveTransaction(unspent, addrs, tx), c)
  {
    var live := AfterTx(For(unspent, c), For(addrs, c), AsTx(tx), true);
    forall op, d: nat
      ensures (op, d) in live <==> d == c && op in LiveTransaction(unspent, addrs, tx)
    {
      assert op in Ops(tx.ins) <==> exists i :: 0 <= i < |tx.ins| && tx.ins[i].op == op;
      assert (op, d) in Unspent(For(unspent, c), Ops(tx.ins)) <==>
             d == c && op in unspent - Spends(unspent, tx.ins);
      assert (op, d) in Paid(For(addrs, c), AsTx(tx)) <==> Pays(For(addrs, c), AsTx(tx), op, d);
      PaysForOne(addrs, tx, op, c, d);
    }
  }

  lemma PaysForOne(addrs: set<Addr>, tx: Transaction, op: OutPoint, c: nat, d: nat)
    ensures Pays(For(addrs, c), AsTx(tx), op, d) <==>
            d == c && op.hash == tx.hash && op.index < |tx.outs| && PaysEncoded(addrs, tx.outs[op.index])
  {
    if op.index < |tx.outs| {
      var to := tx.outs[op.index];
      if PaysAny(For(addrs, c), Encoded(to), d) {
        var addr :| addr in Encoded(to) && (addr, d) in For(addrs, c);
        var j :| 0 <= j < |to| && Encoded(to)[j] == addr;
        assert to[j].encoded in addrs;
      }
      if PaysEncoded(addrs, to) {
        var j :| 0 <= j < |to| && to[j].encoded in addrs;
        assert Encoded(to)[j] in Encoded(to) && (Encoded(to)[j], c) in For(addrs, c);
      }
    }
  }

  /** Connecting the transactions of a block leaves one client watching exactly that. */
  lemma {:induction false} LiveTransactionsAre(unspent: set<OutPoint>, addrs: set<Addr>, txs: seq<Transaction>, c: nat)
    ensures AfterBlock(For(unspent, c), For(addrs, c), AsTxs(txs)) == For(LiveTransactions(unspent, addrs, txs), c)
  {
    if txs != [] {
      var n := |txs| - 1;
      assert AsTxs(txs)[..n] == AsTxs(txs[..n]);
      LiveTransactionsAre(unspent, addrs, txs[..n], c);
      LiveTransactionIs(LiveTransactions(unspent, addrs, txs[..n]), addrs, txs[n], c);
    }
  }

  /** Every output that is not watched anyway is paid to a watched address under both names or under neither. */
  predicate OutputsAgree(unspent: set<OutPoint>, addrs: set<Addr>, tx: Transaction) {
    forall i :: 0 <= i < |tx.outs| && OutPoint(tx.hash, i) !in unspent - Spends(unspent, tx.ins) ==>
      (PaysWatched(addrs, tx.outs[i]) <==> PaysEncoded(addrs, tx.outs[i]))
  }

  /** A rescan of a transaction and connecting it have the same effect exactly then. */
  lemma TransactionAgrees(unspent: set<OutPoint>, addrs: set<Addr>, tx: Transaction)
    ensures AfterTransaction(unspent, addrs, tx) == LiveTransaction(unspent, addrs, tx)
            <==> OutputsAgree(unspent, addrs, tx)
  {
    var rescan, live := AfterTransaction(unspent, addrs, tx), LiveTransaction(unspent, addrs, tx);
    forall i | 0 <= i < |tx.outs| && OutPoint(tx.hash, i) !in unspent - Spends(unspent, tx.ins)
      ensures OutPoint(tx.hash, i) in rescan <==> PaysWatched(addrs, tx.outs[i])
      ensures OutPoint(tx.hash, i) in live <==> PaysEncoded(addrs, tx.outs[i])
    {
    }
    if OutputsAgree(unspent, addrs, tx) {
      forall op
        ensures op in rescan <==> op in live
      {
      }
    }
  }

  /** Up to the first n transactions. */
  ghost predicate AgreeUpTo(unspent: set<OutPoint>, addrs: set<Addr>, txs: seq<Transaction>, n: nat)
    requires n <= |txs|
  {
    AfterTransactions(unspent, addrs, txs[..n]) == LiveTransactions(unspent, addrs, txs[..n])
  }

  lemma {:induction false} AgreeSoFar(unspent: set<OutPoint>, addrs: set<Addr>, txs: seq<Transaction>, n: nat)
    requires n <= |txs|
    requires forall i :: 0 <= i < n ==> OutputsAgree(AfterTransactions(unspent, addrs, txs[..i]), addrs, txs[i])
    ensures AgreeUpTo(unspent, addrs, txs, n)
  {
    if n > 0 {
      AgreeSoFar(unspent, addrs, txs, n - 1);
      assert txs[..n][..n - 1] == txs[..n - 1];
      TransactionAgrees(AfterTransactions(unspent, addrs, txs[..n - 1]), addrs, txs[n - 1]);
    }
  }

  /**
   * After every transaction of a block the unspent set of the rescan is what connecting the same
   * transactions leaves the client watching, if and only if the names agree at every transaction.
   */
  lemma RescanAgreesWithLive(unspent: set<OutPoint>, addrs: set<Addr>, txs: seq<Transaction>)
    ensures (forall n :: 0 <= n <= |txs| ==> AgreeUpTo(unspent, addrs, txs, n)) <==>
            (forall i :: 0 <= i < |txs| ==> OutputsAgree(AfterTransactions(unspent, addrs, txs[..i]), addrs, txs[i]))
  {
    if forall n :: 0 <= n <= |txs| ==> AgreeUpTo(unspent, addrs, txs, n) {
      forall i | 0 <= i < |txs|
        ensures OutputsAgree(AfterTransactions(unspent, addrs, txs[..i]), addrs, txs[i])
      {
        assert AgreeUpTo(unspent, addrs, txs, i) && AgreeUpTo(unspent, addrs, txs, i + 1);
        assert txs[..i + 1][..i] == txs[..i];
        TransactionAgrees(AfterTransactions(unspent, addrs, txs[..i]), addrs, txs[i]);
      }
    } else if forall i :: 0 <= i < |txs| ==> OutputsAgree(AfterTransactions(unspent, addrs, txs[..i]), addrs, txs[i]) {
      forall n | 0 <= n <= |txs|
        ensures AgreeUpTo(unspent, addrs, txs, n)
      {
        AgreeSoFar(unspent, addrs, txs, n);
      }
    }
  }

  /** A client that watches the hash address of a key: live it is shown a payment to the key, a rescan is not. */
  lemma PayToPubKeyIsMissed(hash: Hash, key: Addr, keyHash: Addr)
    requires key != keyHash
    ensures var tx := Transaction(hash, [], [[Dest(keyHash, key)]]);
            && OutPoint(hash, 0) in LiveTransaction({}, {keyHash}, tx)
            && AfterTransaction({}, {keyHash}, tx) == {}
            && OutPoint(hash, 0) in AfterTransaction({}, {key}, tx)
            && LiveTransaction({}, {key}, tx) == {}
  {
    var to := [Dest(keyHash, key)];
    assert to[0].encoded == keyHash && to[0].printed == key;
    assert PaysEncoded({keyHash}, to) && !PaysWatched({keyHash}, to);
    assert PaysWatched({key}, to) && !PaysEncoded({key}, to);
  }

  // ---------------------------------------------------------------- the loops

  /** A client that takes `patience` more notifications and then disconnects. */
  class WsClient {
    var log: seq<Note>
    var patience: nat

    constructor (patience: nat)
      ensures log == [] && this.patience == patience
    {
      log := [];
      this.patience := patience;
    }

    /** QueueNotification: fails exactly when the client is gone. */
    method Queue(n: Note) returns (ok: bool)
      modifies this
      ensures ok == (old(patience) > 0)
      ensures ok ==> log == old(log) + [n] && patience == old(patience) - 1
      ensures !ok ==> log == old(log) && patience == 0
    {
      ok := patience > 0;
      if ok {
        log := log + [n];
        patience := patience - 1;
      }
    }
  }

  class Keys {
    const addrs: set<Addr>
    var unspent: set<OutPoint>

    constructor (addrs: set<Addr>, unspent: set<OutPoint>)
      ensures this.addrs == addrs && this.unspent == unspent
    {
      this.addrs := addrs;
      this.unspent := unspent;
    }
  }

  /** The input loop: stops early only if the one redeemingtx finds the client gone. */
  method ScanInputs(wsc: WsClient, keys: Keys, tx: Transaction) returns (quit: bool)
    modifies wsc, keys`unspent
    ensures quit <==> Redeems(old(keys.unspent), keys.addrs, tx.ins) && old(wsc.patience) == 0
    ensures quit ==> wsc.log == old(wsc.log) && wsc.patience == 0
    ensures !quit ==>
              var said := if Redeems(old(keys.unspent), keys.addrs, tx.ins) then [Redeeming(tx)] else [];
              && wsc.log == old(wsc.log) + said && wsc.patience == old(wsc.patience) - |said|
              && keys.unspent == old(keys.unspent) - Spends(old(keys.unspent), tx.ins)
  {
    var notified := false;
    ghost var u := keys.unspent;
    for i := 0 to |tx.ins|
      invariant keys.unspent == u - Spends(u, tx.ins[..i])
      invariant notified <==> Redeems(u, keys.addrs, tx.ins[..i])
      invariant wsc.log == old(wsc.log) + if notified then [Redeeming(tx)] else []
      invariant wsc.patience == old(wsc.patience) - if notified then 1 else 0
    {
      var input := tx.ins[i];
      var hit := input.op in keys.unspent;
      keys.unspent := keys.unspent - {input.op};
      if !notified && (hit || (input.redeems.Some? && input.redeems.value in keys.addrs)) {
        var ok := wsc.Queue(Redeeming(tx));
        if !ok {
          RedeemsGrows(u, keys.addrs, tx.ins, i + 1);
          return true;
        }
        notified := true;
      }
    }
    assert tx.ins[..|tx.ins|] == tx.ins;
    return false;
  }

  lemma RedeemsGrows(unspent: set<OutPoint>, addrs: set<Addr>, ins: seq<Input>, i: nat)
    requires i <= |ins| && Redeems(unspent, addrs, ins[..i])
    ensures Redeems(unspent, addrs, ins)
  {
    var j :| 0 <= j < i && Matches(unspent, addrs, ins[..i][j]);
    assert Matches(unspent, addrs, ins[j]);
  }

  lemma ReceivesMore(addrs: set<Addr>, hash: Hash, outs: seq<seq<Dest>>, i: nat)
    requires i < |outs|
    ensures Receives(addrs, hash, outs[..i + 1]) ==
            Receives(addrs, hash, outs[..i]) + if PaysWatched(addrs, outs[i]) then {OutPoint(hash, i)} else {}
    ensures Receives(addrs, hash, outs[..i]) != {} ==> Receives(addrs, hash, outs) != {}
    ensures PaysWatched(addrs, outs[i]) ==> OutPoint(hash, i) in Receives(addrs, hash, outs)
  {
    var longer, shorter := outs[..i + 1], outs[..i];
    assert longer[i] == outs[i] && forall j :: 0 <= j < i ==> longer[j] == shorter[j];
    if Receives(addrs, hash, shorter) != {} {
      var op :| op in Receives(addrs, hash, shorter);
      assert op in Receives(addrs, hash, outs);
    }
  }

  /** The addresses of one output. */
  method ScanOutput(wsc: WsClient, keys: Keys, tx: Transaction, i: nat, notified0: bool)
    returns (quit: bool, notified: bool)
    requires i < |tx.outs|
    modifies wsc, keys`unspent
    ensures quit <==> PaysWatched(keys.addrs, tx.outs[i]) && !notified0 && old(wsc.patience) == 0
    ensures quit ==> wsc.log == old(wsc.log) && wsc.patience == 0
    ensures !quit ==> notified == (notified0 || PaysWatched(keys.addrs, tx.outs[i]))
    ensures !quit ==> wsc.log == old(wsc.log) + if notified && !notified0 then [Received(tx)] else []
    ensures !quit ==> wsc.patience == old(wsc.patience) - if notified && !notified0 then 1 else 0
    ensures !quit ==> keys.unspent ==
                      old(keys.unspent) + if PaysWatched(keys.addrs, tx.outs[i]) then {OutPoint(tx.hash, i)} else {}
  {
    notified := notified0;
    var to := tx.outs[i];
    for j := 0 to |to|
      invariant notified == (notified0 || PaysWatched(keys.addrs, to[..j]))
      invariant wsc.log == old(wsc.log) + if notified && !notified0 then [Received(tx)] else []
      invariant wsc.patience == old(wsc.patience) - if notified && !notified0 then 1 else 0
      invariant keys.unspent ==
                old(keys.unspent) + if PaysWatched(keys.addrs, to[..j]) then {OutPoint(tx.hash, i)} else {}
    {
      assert to[..j + 1][j] == to[j] && forall k :: 0 <= k < j ==> to[..j + 1][k] == to[..j][k];
      if to[j].printed in keys.addrs {
        keys.unspent := keys.unspent + {OutPoint(tx.hash, i)};
        if !notified {
          var ok := wsc.Queue(Received(tx));
          if !ok {
            return true, notified;
          }
          notified := true;
        }
      }
    }
    assert to[..|to|] == to;
    quit := false;
  }

  /** The output loop: stops early only if the one recvtx finds the client gone. */
  method ScanOutputs(wsc: WsClient, keys: Keys, tx: Transaction) returns (quit: bool)
    modifies wsc, keys`unspent
    ensures quit <==> Receives(keys.addrs, tx.hash, tx.outs) != {} && old(wsc.patience) == 0
    ensures quit ==> wsc.log == old(wsc.log) && wsc.patience == 0
    ensures !quit ==>
              var said := if Receives(keys.addrs, tx.hash, tx.outs) != {} then [Received(tx)] else [];
              && wsc.log == old(wsc.log) + said && wsc.patience == old(wsc.patience) - |said|
              && keys.unspent == old(keys.unspent) + Receives(keys.addrs, tx.hash, tx.outs)
  {
    var notified := false;
    for i := 0 to |tx.outs|
      invariant keys.unspent == old(keys.unspent) + Receives(keys.addrs, tx.hash, tx.outs[..i])
      invariant notified <==> Receives(keys.addrs, tx.hash, tx.outs[..i]) != {}
      invariant wsc.log == old(wsc.log) + if notified then [Received(tx)] else []
      invariant wsc.patience == old(wsc.patience) - if notified then 1 else 0
    {
      ReceivesMore(keys.addrs, tx.hash, tx.outs, i);
      quit, notified := ScanOutput(wsc, keys, tx, i, notified);
      if quit {
        return;
      }
    }
    assert tx.outs[..|tx.outs|] == tx.outs;
    quit := false;
  }

  method RescanTransaction(wsc: WsClient, keys: Keys, tx: Transaction) returns (quit: bool)
    modifies wsc, keys`unspent
    ensures quit <==> old(wsc.patience) < |TransactionNotes(old(keys.unspent), keys.addrs, tx)|
    ensures quit ==> wsc.patience == 0 && wsc.log ==
                     old(wsc.log) + TransactionNotes(old(keys.unspent), keys.addrs, tx)[..old(wsc.patience)]
    ensures !quit ==> wsc.log == old(wsc.log) + TransactionNotes(old(keys.unspent), keys.addrs, tx)
    ensures !quit ==> wsc.patience == old(wsc.patience) - |TransactionNotes(old(keys.unspent), keys.addrs, tx)|
    ensures !quit ==> keys.unspent == AfterTransaction(old(keys.unspent), keys.addrs, tx)
  {
    quit := ScanInputs(wsc, keys, tx);
    if !quit {
      quit := ScanOutputs(wsc, keys, tx);
    }
  }

  /** Where the notes of a block are cut off, when that is within those of transaction i. */
  lemma CutWithin(unspent: set<OutPoint>, addrs: set<Addr>, txs: seq<Transaction>, i: nat, patience: nat)
    requires i < |txs|
    requires 0 <= patience - |Notes(unspent, addrs, txs[..i])| <
                  |TransactionNotes(AfterTransactions(unspent, addrs, txs[..i]), addrs, txs[i])|
    ensures patience < |Notes(unspent, addrs, txs)|
    ensures Notes(unspent, addrs, txs)[..patience] ==
            Notes(unspent, addrs, txs[..i])
            + TransactionNotes(AfterTransactions(unspent, addrs, txs[..i]), addrs, txs[i])
              [..patience - |Notes(unspent, addrs, txs[..i])|]
  {
    NotesMore(unspent, addrs, txs, i);
    NotesPrefix(unspent, addrs, txs, i + 1);
    var upto := Notes(unspent, addrs, txs[..i + 1]);
    assert Notes(unspent, addrs, txs)[..patience] == upto[..patience];
  }

  /**
   * A whole block.  The client hears exactly the notes of the fold, or as many as it waits for; if it
   * waits for all, the unspent set is that of the fold.
   */
  method RescanBlock(wsc: WsClient, keys: Keys, txs: seq<Transaction>) returns (ghost quit: bool)
    modifies wsc, keys`unspent
    ensures quit <==> old(wsc.patience) < |Notes(old(keys.unspent), keys.addrs, txs)|
    ensures quit ==> wsc.patience == 0
                     && wsc.log == old(wsc.log) + Notes(old(keys.unspent), keys.addrs, txs)[..old(wsc.patience)]
    ensures !quit ==> wsc.log == old(wsc.log) + Notes(old(keys.unspent), keys.addrs, txs)
    ensures !quit ==> wsc.patience == old(wsc.patience) - |Notes(old(keys.unspent), keys.addrs, txs)|
    ensures !quit ==> keys.unspent == AfterTransactions(old(keys.unspent), keys.addrs, txs)
  {
    ghost var u := keys.unspent;
    for i := 0 to |txs|
      invariant keys.unspent == AfterTransactions(u, keys.addrs, txs[..i])
      invariant wsc.log == old(wsc.log) + Notes(u, keys.addrs, txs[..i])
      invariant wsc.patience == old(wsc.patience) - |Notes(u, keys.addrs, txs[..i])|
    {
      NotesMore(u, keys.addrs, txs, i);
      var gone := RescanTransaction(wsc, keys, txs[i]);
      if gone {
        CutWithin(u, keys.addrs, txs, i, old(wsc.patience));
        return true;
      }
    }
    assert txs[..|txs|] == txs;
    quit := false;
  }
}
