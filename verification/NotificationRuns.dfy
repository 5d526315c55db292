/**
 * Who is told what over a run of the notification handler, told from the messages alone
 * (btcd/rpcwebsocket.go): a subscription stands if and only if some message gave it and none after
 * that took it away.
 */
module NotificationRuns {
  import opened Subscriptions
  import opened Notifications

  const NOBODY := Tables({}, {}, {}, {}, {})

  ghost function After(ms: seq<Message>): Tables {
    Run(NOBODY, ms)
  }

  lemma AfterOneMore(ms: seq<Message>, m: Message)
    ensures After(ms + [m]) == Next(After(ms), m)
  {
    assert (ms + [m])[..|ms|] == ms;
  }

  // ---------------------------------------------------------------- blocks, mempool transactions and addresses

  /** What a client can subscribe to besides single outpoints. */
  datatype Topic = Blocks | Mempool | Payments(addr: Addr)

  predicate Subscribes(m: Message, topic: Topic, c: Client) {
    match topic
    case Blocks => m == RegisterBlocks(c)
    case Mempool => m == RegisterMempoolTxs(c)
    case Payments(a) => m.RegisterAddr? && m.client == c && a in m.addrs
  }

  predicate Ends(m: Message, topic: Topic, c: Client) {
    || m == UnregisterClient(c)
    || match topic
       case Blocks => m == UnregisterBlocks(c)
       case Mempool => m == UnregisterMempoolTxs(c)
       case Payments(a) => m == UnregisterAddr(c, a)
  }

  ghost predicate SubscribedSince(ms: seq<Message>, topic: Topic, c: Client, i: nat) {
    i < |ms| && Subscribes(ms[i], topic, c) && forall j :: i < j < |ms| ==> !Ends(ms[j], topic, c)
  }

  /** The client asked for it and has not ended that since. */
  ghost predicate Subscribed(ms: seq<Message>, topic: Topic, c: Client) {
    exists i: nat :: SubscribedSince(ms, topic, c, i)
  }

  lemma SubscribedOneMore(ms: seq<Message>, m: Message, topic: Topic, c: Client)
    ensures Subscribed(ms + [m], topic, c) <==>
            Subscribes(m, topic, c) || (Subscribed(ms, topic, c) && !Ends(m, topic, c))
  {
    var n, all := |ms|, ms + [m];
    assert all[n] == m && forall j :: 0 <= j < n ==> all[j] == ms[j];
    if Subscribed(all, topic, c) {
      var i: nat :| SubscribedSince(all, topic, c, i);
      if i < n {
        assert SubscribedSince(ms, topic, c, i);
      }
    }
    if Subscribes(m, topic, c) {
      assert SubscribedSince(all, topic, c, n);
    }
    if Subscribed(ms, topic, c) && !Ends(m, topic, c) {
      var i: nat :| SubscribedSince(ms, topic, c, i);
      assert SubscribedSince(all, topic, c, i);
    }
  }

  /** What the tables say. */
  ghost predicate Tabled(t: Tables, topic: Topic, c: Client) {
    match topic
    case Blocks => c in t.blocks
    case Mempool => c in t.txs
    case Payments(a) => (a, c) in t.listen
  }

  /** Over every run the tables hold exactly the subscriptions that stand. */
  lemma {:induction false} SubscribedExactly(ms: seq<Message>, topic: Topic, c: Client)
    ensures Tabled(After(ms), topic, c) <==> Subscribed(ms, topic, c)
  {
    if ms != [] {
      var init, m := ms[..|ms| - 1], ms[|ms| - 1];
      assert ms == init + [m];
      SubscribedExactly(init, topic, c);
      SubscribedOneMore(init, m, topic, c);
    }
  }

  // ---------------------------------------------------------------- outpoints

  /** Output op is one of tx's and pays an address that c listens to after these messages. */
  ghost predicate PaysListener(ms: seq<Message>, tx: Tx, op: OutPoint, c: Client) {
    && op.hash == tx.hash && op.index < |tx.outs|
    && exists a :: a in tx.outs[op.index] && Subscribed(ms, Payments(a), c)
  }

  lemma PaysExactly(ms: seq<Message>, tx: Tx, op: OutPoint, c: Client)
    ensures Pays(After(ms).listen, tx, op, c) <==> PaysListener(ms, tx, op, c)
  {
    forall a: Addr
      ensures (a, c) in After(ms).listen <==> Subscribed(ms, Payments(a), c)
    {
      SubscribedExactly(ms, Payments(a), c);
    }
  }

  /** The block pays c with output op, in transaction j, and does not spend it again. */
  ghost predicate BlockLeaves(ms: seq<Message>, txs: seq<Tx>, op: OutPoint, c: Client, j: nat) {
    j < |txs| && PaysListener(ms, txs[j], op, c) && !SpentFrom(txs, op, j + 1)
  }

  /** Message m, coming after these, gives outpoint op to c. */
  ghost predicate GivesOp(ms: seq<Message>, m: Message, op: OutPoint, c: Client) {
    match m
    case RegisterSpent(d, ops) => d == c && op in ops
    case AcceptTx(tx, _) => PaysListener(ms, tx, op, c)
    case ConnectBlock(txs) => exists j: nat :: BlockLeaves(ms, txs, op, c, j)
    case _ => false
  }

  predicate EndsOp(m: Message, op: OutPoint, c: Client) {
    m == UnregisterSpent(c, op) || m == UnregisterClient(c) ||
    (m.ConnectBlock? && exists i :: 0 <= i < |m.txs| && op in m.txs[i].ins)
  }

  ghost predicate WatchesSince(ms: seq<Message>, op: OutPoint, c: Client, i: nat) {
    i < |ms| && GivesOp(ms[..i], ms[i], op, c) && forall j :: i < j < |ms| ==> !EndsOp(ms[j], op, c)
  }

  /** Some message gave the outpoint to the client, and none since ended that. */
  ghost predicate Watches(ms: seq<Message>, op: OutPoint, c: Client) {
    exists i: nat :: WatchesSince(ms, op, c, i)
  }

  lemma WatchesOneMore(ms: seq<Message>, m: Message, op: OutPoint, c: Client)
    ensures Watches(ms + [m], op, c) <==> GivesOp(ms, m, op, c) || (Watches(ms, op, c) && !EndsOp(m, op, c))
  {
    var n, all := |ms|, ms + [m];
    assert all[n] == m && all[..n] == ms && forall j :: 0 <= j < n ==> all[j] == ms[j];
    if Watches(all, op, c) {
      var i: nat :| WatchesSince(all, op, c, i);
      if i < n {
        assert all[..i] == ms[..i];
        assert WatchesSince(ms, op, c, i);
      }
    }
    if GivesOp(ms, m, op, c) {
      assert WatchesSince(all, op, c, n);
    }
    if Watches(ms, op, c) && !EndsOp(m, op, c) {
      var i: nat :| WatchesSince(ms, op, c, i);
      assert all[..i] == ms[..i];
      assert WatchesSince(all, op, c, i);
    }
  }

  lemma BlockStep(ms: seq<Message>, txs: seq<Tx>, op: OutPoint, c: Client)
    ensures (op, c) in AfterBlock(After(ms).watch, After(ms).listen, txs) <==>
            GivesOp(ms, ConnectBlock(txs), op, c)
            || ((op, c) in After(ms).watch && !EndsOp(ConnectBlock(txs), op, c))
  {
    WatchedAfterBlock(After(ms).watch, After(ms).listen, txs, op, c);
    forall j: nat
      ensures LeftBy(After(ms).listen, txs, op, c, j) <==> BlockLeaves(ms, txs, op, c, j)
    {
      if j < |txs| {
        PaysExactly(ms, txs[j], op, c);
      }
    }
    assert SpentFrom(txs, op, 0) <==> EndsOp(ConnectBlock(txs), op, c);
  }

  /** Over every run an outpoint is watched for a client if and only if the messages say so. */
  lemma {:induction false} WatchesExactly(ms: seq<Message>, op: OutPoint, c: Client)
    ensures (op, c) in After(ms).watch <==> Watches(ms, op, c)
  {
    if ms != [] {
      var init, m := ms[..|ms| - 1], ms[|ms| - 1];
      assert ms == init + [m];
      WatchesExactly(init, op, c);
      WatchesOneMore(init, m, op, c);
      match m
      case ConnectBlock(txs) => BlockStep(init, txs, op, c);
      case AcceptTx(tx, _) => PaysExactly(init, tx, op, c);
      case _ =>
    }
  }

  // ---------------------------------------------------------------- who is told

  ghost function Count(log: Log, c: Client, n: Notification): nat {
    multiset(log)[(c, n)]
  }

  /** A transaction is announced by redeemingtx and recvtx notifications only. */
  lemma TxSaysOnly(start: Log, log: Log, w: Watch, a: Listen, tx: Tx, confirmed: bool, pool: Pool, c: Client,
                   n: Notification)
    requires ToldTx(start, log, w, a, tx, confirmed, pool) && !n.RedeemingTx? && !n.RecvTx?
    ensures Count(log, c, n) == Count(start, c, n)
  {
    assert !MempoolSpend(n, tx, pool);
    var e := (c, n);
    assert multiset(log)[e] == multiset(start)[e];
  }

  /** What is said of a block is what is said of its first transactions and then of its last. */
  lemma LastOfBlock(start: Log, log: Log, w: Watch, a: Listen, txs: seq<Tx>, pool: Pool) returns (between: Log)
    requires ToldBlock(start, log, w, a, txs, pool) && txs != []
    ensures var k := |txs| - 1;
            && ToldBlock(start, between, w, a, txs[..k], pool)
            && ToldTx(between, log, AfterBlock(w, a, txs[..k]), a, txs[k], true, pool)
  {
    var k := |txs| - 1;
    between :| ToldBlock(start, between, w, a, txs[..k], pool)
               && ToldTx(between, log, AfterBlock(w, a, txs[..k]), a, txs[k], true, pool);
  }

  lemma {:induction false} BlockSaysOnly(start: Log, log: Log, w: Watch, a: Listen, txs: seq<Tx>, pool: Pool, c: Client,
                                         n: Notification)
    requires ToldBlock(start, log, w, a, txs, pool) && !n.RedeemingTx? && !n.RecvTx?
    ensures Count(log, c, n) == Count(start, c, n)
    decreases |txs|
  {
    if txs != [] {
      var k := |txs| - 1;
      var between := LastOfBlock(start, log, w, a, txs, pool);
      TxSaysOnly(between, log, AfterBlock(w, a, txs[..k]), a, txs[k], true, pool, c, n);
      BlockSaysOnly(start, between, w, a, txs[..k], pool, c, n);
    }
  }

  /** A block is announced, connected or disconnected, to exactly the clients whose subscription stands. */
  lemma BlocksAreTold(start: Log, log: Log, ms: seq<Message>, m: Message, pool: Pool, c: Client)
    requires (m.ConnectBlock? || m.DisconnectBlock?) && ToldFor(start, log, After(ms), m, pool)
    ensures var n := if m.ConnectBlock? then BlockConnected(m.txs) else BlockDisconnected(m.txs);
            Count(log, c, n) == Count(start, c, n) + if Subscribed(ms, Blocks, c) then 1 else 0
  {
    SubscribedExactly(ms, Blocks, c);
    var t := After(ms);
    if m.ConnectBlock? {
      var between :| ToldBlock(start, between, t.watch, t.listen, m.txs, pool)
                     && Told(between, log, t.blocks, BlockConnected(m.txs));
      BlockSaysOnly(start, between, t.watch, t.listen, m.txs, pool, c, BlockConnected(m.txs));
    }
  }

  /** A new mempool transaction is announced to exactly those whose subscription stands. */
  lemma AcceptedIsTold(start: Log, log: Log, ms: seq<Message>, tx: Tx, isNew: bool, pool: Pool, c: Client)
    requires ToldFor(start, log, After(ms), AcceptTx(tx, isNew), pool)
    ensures Count(log, c, TxAccepted(tx)) ==
            Count(start, c, TxAccepted(tx)) + if isNew && Subscribed(ms, Mempool, c) then 1 else 0
  {
    SubscribedExactly(ms, Mempool, c);
    var t := After(ms);
    var between :| Told(start, between, if isNew then t.txs else {}, TxAccepted(tx))
                   && ToldTx(between, log, t.watch, t.listen, tx, false, pool);
    TxSaysOnly(between, log, t.watch, t.listen, tx, false, pool, c, TxAccepted(tx));
  }

  /** Some input of the transaction spends what c watches after these messages. */
  ghost predicate SpendsWatched(ms: seq<Message>, tx: Tx, c: Client) {
    exists op :: op in tx.ins && Watches(ms, op, c)
  }

  /** Some output of the transaction pays what c listens to after these messages. */
  ghost predicate PaysClient(ms: seq<Message>, tx: Tx, c: Client) {
    exists i: nat :: i < |tx.outs| && PaysListener(ms, tx, OutPoint(tx.hash, i), c)
  }

  lemma WatchersExactly(ms: seq<Message>, tx: Tx, c: Client)
    ensures c in Watchers(After(ms).watch, tx.ins) <==> SpendsWatched(ms, tx, c)
  {
    forall op
      ensures (op, c) in After(ms).watch <==> Watches(ms, op, c)
    {
      WatchesExactly(ms, op, c);
    }
  }

  lemma PayeesExactly(ms: seq<Message>, tx: Tx, c: Client)
    ensures c in Payees(After(ms).listen, tx.outs) <==> PaysClient(ms, tx, c)
  {
    forall i: nat | i < |tx.outs|
      ensures PaysAny(After(ms).listen, tx.outs[i], c) <==> PaysListener(ms, tx, OutPoint(tx.hash, i), c)
    {
      PaysExactly(ms, tx, OutPoint(tx.hash, i), c);
      assert Pays(After(ms).listen, tx, OutPoint(tx.hash, i), c) <==> PaysAny(After(ms).listen, tx.outs[i], c);
    }
  }

  /** The redeemingtx and recvtx notifications of a transaction, the mempool not holding that it spends itself. */
  lemma TxIsTold(start: Log, log: Log, ms: seq<Message>, tx: Tx, confirmed: bool, pool: Pool, c: Client)
    requires ToldTx(start, log, After(ms).watch, After(ms).listen, tx, confirmed, pool)
    requires confirmed || !MempoolSpend(RedeemingTx(tx, false), tx, pool)
    ensures Count(log, c, RedeemingTx(tx, confirmed)) ==
            Count(start, c, RedeemingTx(tx, confirmed)) + if SpendsWatched(ms, tx, c) then 1 else 0
    ensures Count(log, c, RecvTx(tx, confirmed)) ==
            Count(start, c, RecvTx(tx, confirmed)) + if PaysClient(ms, tx, c) then 1 else 0
  {
    WatchersExactly(ms, tx, c);
    PayeesExactly(ms, tx, c);
    TxCounts(start, log, After(ms).watch, After(ms).listen, tx, confirmed, pool, c);
  }

  lemma TxCounts(start: Log, log: Log, w: Watch, a: Listen, tx: Tx, confirmed: bool, pool: Pool, c: Client)
    requires ToldTx(start, log, w, a, tx, confirmed, pool)
    requires confirmed || !MempoolSpend(RedeemingTx(tx, false), tx, pool)
    ensures Count(log, c, RedeemingTx(tx, confirmed)) ==
            Count(start, c, RedeemingTx(tx, confirmed)) + if c in Watchers(w, tx.ins) then 1 else 0
    ensures Count(log, c, RecvTx(tx, confirmed)) ==
            Count(start, c, RecvTx(tx, confirmed)) + if c in Payees(a, tx.outs) then 1 else 0
  {
    var between :| Told(start, between, Watchers(w, tx.ins), RedeemingTx(tx, confirmed))
                   && ToldPayees(between, log, Payees(a, tx.outs), RecvTx(tx, confirmed), tx, pool);
    var spend, receipt := (c, RedeemingTx(tx, confirmed)), (c, RecvTx(tx, confirmed));
    assert multiset(between)[spend] == multiset(start)[spend] + if c in Watchers(w, tx.ins) then 1 else 0;
    assert multiset(between)[receipt] == multiset(start)[receipt];
    assert multiset(log)[spend] == multiset(between)[spend];
  }

  lemma OtherTxCounts(start: Log, log: Log, w: Watch, a: Listen, other: Tx, pool: Pool, c: Client, n: Notification)
    requires ToldTx(start, log, w, a, other, true, pool)
    requires (n.RedeemingTx? || n.RecvTx?) && n.confirmed && n.tx != other
    ensures Count(log, c, n) == Count(start, c, n)
  {
    assert !MempoolSpend(n, other, pool);
    var e := (c, n);
    assert multiset(log)[e] == multiset(start)[e];
  }

  /** What a mempool transaction leads to. */
  lemma AcceptedSpendsAreTold(start: Log, log: Log, ms: seq<Message>, tx: Tx, isNew: bool, pool: Pool, c: Client)
    requires ToldFor(start, log, After(ms), AcceptTx(tx, isNew), pool)
    requires !MempoolSpend(RedeemingTx(tx, false), tx, pool)
    ensures Count(log, c, RedeemingTx(tx, false)) ==
            Count(start, c, RedeemingTx(tx, false)) + if SpendsWatched(ms, tx, c) then 1 else 0
    ensures Count(log, c, RecvTx(tx, false)) ==
            Count(start, c, RecvTx(tx, false)) + if PaysClient(ms, tx, c) then 1 else 0
  {
    var t := After(ms);
    var between :| Told(start, between, if isNew then t.txs else {}, TxAccepted(tx))
                   && ToldTx(between, log, t.watch, t.listen, tx, false, pool);
    TxIsTold(between, log, ms, tx, false, pool, c);
  }

  /** The mempool holds a spend of one of these outpoints by this transaction. */
  ghost predicate SpentInPool(ops: seq<OutPoint>, pool: Pool, tx: Tx) {
    exists op :: op in ops && op in pool && pool[op] == tx
  }

  /** Registering outpoints announces the spends of them that the mempool holds, to all who watch an input by then. */
  lemma RegisteredSpendsAreTold(start: Log, log: Log, ms: seq<Message>, c: Client, ops: seq<OutPoint>, pool: Pool,
                                tx: Tx, d: Client)
    requires ToldFor(start, log, After(ms), RegisterSpent(c, ops), pool)
    ensures Count(log, d, RedeemingTx(tx, false)) ==
            Count(start, d, RedeemingTx(tx, false))
            + if SpentInPool(ops, pool, tx) && SpendsWatched(ms + [RegisterSpent(c, ops)], tx, d) then 1 else 0
  {
    AfterOneMore(ms, RegisterSpent(c, ops));
    WatchersExactly(ms + [RegisterSpent(c, ops)], tx, d);
    var spends := set op | op in ops && op in pool :: pool[op];
    assert tx in spends <==> SpentInPool(ops, pool, tx);
    var e := (d, RedeemingTx(tx, false));
    assert multiset(log)[e] == multiset(start)[e]
                               + if tx in spends && d in Watchers(After(ms + [RegisterSpent(c, ops)]).watch, tx.ins)
                                 then 1 else 0;
  }

  ghost predicate Once(txs: seq<Tx>, k: nat)
    requires k < |txs|
  {
    forall i :: 0 <= i < |txs| && i != k ==> txs[i] != txs[k]
  }

  /** Transaction k of a connected block, where no other is the same: told to whoever watches or listens by then. */
  lemma BlockSpendsAreTold(start: Log, log: Log, ms: seq<Message>, txs: seq<Tx>, k: nat, pool: Pool, c: Client)
    requires ToldFor(start, log, After(ms), ConnectBlock(txs), pool)
    requires k < |txs| && Once(txs, k)
    ensures var before := ms + [ConnectBlock(txs[..k])];
            && Count(log, c, RedeemingTx(txs[k], true)) ==
               Count(start, c, RedeemingTx(txs[k], true)) + (if SpendsWatched(before, txs[k], c) then 1 else 0)
            && Count(log, c, RecvTx(txs[k], true)) ==
               Count(start, c, RecvTx(txs[k], true)) + if PaysClient(before, txs[k], c) then 1 else 0
  {
    var between := TransactionsFirst(start, log, After(ms), txs, pool, c);
    BlockCounts(start, between, After(ms).watch, After(ms).listen, txs, k, pool, c);
    var before := ms + [ConnectBlock(txs[..k])];
    AfterOneMore(ms, ConnectBlock(txs[..k]));
    WatchersExactly(before, txs[k], c);
    PayeesExactly(before, txs[k], c);
  }

  lemma TransactionsFirst(start: Log, log: Log, t: Tables, txs: seq<Tx>, pool: Pool, c: Client) returns (between: Log)
    requires ToldFor(start, log, t, ConnectBlock(txs), pool)
    ensures ToldBlock(start, between, t.watch, t.listen, txs, pool)
    ensures forall n: Notification :: !n.BlockConnected? ==> Count(log, c, n) == Count(between, c, n)
  {
    between :| ToldBlock(start, between, t.watch, t.listen, txs, pool)
               && Told(between, log, t.blocks, BlockConnected(txs));
    forall n: Notification | !n.BlockConnected?
      ensures Count(log, c, n) == Count(between, c, n)
    {
      var e := (c, n);
      assert multiset(log)[e] == multiset(between)[e];
    }
  }

  /** The log after each transaction of a block. */
  ghost predicate Logged(logs: seq<Log>, w: Watch, a: Listen, txs: seq<Tx>, pool: Pool) {
    |logs| == |txs| + 1 && forall i :: 0 <= i < |txs| ==> LoggedAt(logs, w, a, txs, pool, i)
  }

  ghost predicate LoggedAt(logs: seq<Log>, w: Watch, a: Listen, txs: seq<Tx>, pool: Pool, i: nat)
    requires |logs| == |txs| + 1 && i < |txs|
  {
    ToldTx(logs[i], logs[i + 1], AfterBlock(w, a, txs[..i]), a, txs[i], true, pool)
  }

  lemma {:induction false} LogsOf(start: Log, log: Log, w: Watch, a: Listen, txs: seq<Tx>, pool: Pool)
    returns (logs: seq<Log>)
    requires ToldBlock(start, log, w, a, txs, pool)
    ensures Logged(logs, w, a, txs, pool) && logs[0] == start && logs[|txs|] == log
    decreases |txs|
  {
    if txs == [] {
      logs := [start];
    } else {
      var n := |txs| - 1;
      var between := LastOfBlock(start, log, w, a, txs, pool);
      var init := LogsOf(start, between, w, a, txs[..n], pool);
      logs := init + [log];
      LogsMore(init, w, a, txs, pool, log);
    }
  }

  lemma LogsMore(init: seq<Log>, w: Watch, a: Listen, txs: seq<Tx>, pool: Pool, log: Log)
    requires txs != [] && Logged(init, w, a, txs[..|txs| - 1], pool)
    requires var n := |txs| - 1; ToldTx(init[n], log, AfterBlock(w, a, txs[..n]), a, txs[n], true, pool)
    ensures Logged(init + [log], w, a, txs, pool)
  {
    var n := |txs| - 1;
    forall i | 0 <= i < |txs|
      ensures LoggedAt(init + [log], w, a, txs, pool, i) == true
    {
      if i < n {
        LoggedStill(init, w, a, txs, pool, log, i);
      }
    }
  }

  lemma LoggedStill(init: seq<Log>, w: Watch, a: Listen, txs: seq<Tx>, pool: Pool, log: Log, i: nat)
    requires i < |txs| - 1 && |init| == |txs| && LoggedAt(init, w, a, txs[..|txs| - 1], pool, i)
    ensures LoggedAt(init + [log], w, a, txs, pool, i)
  {
    var init', n := init + [log], |txs| - 1;
    assert init'[i] == init[i] && init'[i + 1] == init[i + 1];
    assert txs[..n][..i] == txs[..i] && txs[..n][i] == txs[i];
  }

  /** Other transactions say nothing of this one. */
  lemma {:induction false} SilentBetween(logs: seq<Log>, w: Watch, a: Listen, txs: seq<Tx>, pool: Pool, lo: nat,
                                         hi: nat, c: Client, n: Notification)
    requires Logged(logs, w, a, txs, pool) && lo <= hi <= |txs|
    requires (n.RedeemingTx? || n.RecvTx?) && n.confirmed && forall i :: lo <= i < hi ==> txs[i] != n.tx
    ensures Count(logs[hi], c, n) == Count(logs[lo], c, n)
    decreases hi
  {
    if lo < hi {
      SilentBetween(logs, w, a, txs, pool, lo, hi - 1, c, n);
      assert LoggedAt(logs, w, a, txs, pool, hi - 1);
      OtherTxCounts(logs[hi - 1], logs[hi], AfterBlock(w, a, txs[..hi - 1]), a, txs[hi - 1], pool, c, n);
    }
  }

  lemma BlockCounts(start: Log, log: Log, w: Watch, a: Listen, txs: seq<Tx>, k: nat, pool: Pool, c: Client)
    requires ToldBlock(start, log, w, a, txs, pool)
    requires k < |txs| && Once(txs, k)
    ensures Count(log, c, RedeemingTx(txs[k], true)) ==
            Count(start, c, RedeemingTx(txs[k], true))
            + if c in Watchers(AfterBlock(w, a, txs[..k]), txs[k].ins) then 1 else 0
    ensures Count(log, c, RecvTx(txs[k], true)) ==
            Count(start, c, RecvTx(txs[k], true)) + if c in Payees(a, txs[k].outs) then 1 else 0
  {
    var logs := LogsOf(start, log, w, a, txs, pool);
    LoggedCounts(logs, w, a, txs, k, pool, c);
  }

  lemma LoggedCounts(logs: seq<Log>, w: Watch, a: Listen, txs: seq<Tx>, k: nat, pool: Pool, c: Client)
    requires Logged(logs, w, a, txs, pool) && k < |txs| && Once(txs, k)
    ensures Count(logs[|txs|], c, RedeemingTx(txs[k], true)) ==
            Count(logs[0], c, RedeemingTx(txs[k], true))
            + if c in Watchers(AfterBlock(w, a, txs[..k]), txs[k].ins) then 1 else 0
    ensures Count(logs[|txs|], c, RecvTx(txs[k], true)) ==
            Count(logs[0], c, RecvTx(txs[k], true)) + if c in Payees(a, txs[k].outs) then 1 else 0
  {
    SilentBetween(logs, w, a, txs, pool, 0, k, c, RedeemingTx(txs[k], true));
    SilentBetween(logs, w, a, txs, pool, 0, k, c, RecvTx(txs[k], true));
    assert LoggedAt(logs, w, a, txs, pool, k);
    TxCounts(logs[k], logs[k + 1], AfterBlock(w, a, txs[..k]), a, txs[k], true, pool, c);
    SilentBetween(logs, w, a, txs, pool, k + 1, |txs|, c, RedeemingTx(txs[k], true));
    SilentBetween(logs, w, a, txs, pool, k + 1, |txs|, c, RecvTx(txs[k], true));
  }
}
