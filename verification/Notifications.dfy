/**
 * The notification handler of the websocket server (btcd/rpcwebsocket.go): one goroutine that owns
 * the subscription tables and handles one message at a time.  `sent` lists what was queued with the
 * clients; the order among the clients of one event is the map's.
 */
module Notifications {
  import opened Iteration
  import opened Subscriptions

  /** A block given by its transactions; `confirmed` says that the notification names a block. */
  datatype Notification =
    | RedeemingTx(tx: Tx, confirmed: bool)
    | RecvTx(tx: Tx, confirmed: bool)
    | BlockConnected(txs: seq<Tx>)
    | BlockDisconnected(txs: seq<Tx>)
    | TxAccepted(tx: Tx)

  /** The transaction of the memory pool that spends an outpoint, if any. */
  type Pool = map<OutPoint, Tx>

  datatype Message =
    | ConnectBlock(txs: seq<Tx>)
    | DisconnectBlock(txs: seq<Tx>)
    | AcceptTx(tx: Tx, isNew: bool)
    | RegisterBlocks(client: Client)
    | UnregisterBlocks(client: Client)
    | RegisterClient(client: Client)
    | UnregisterClient(client: Client)
    | RegisterSpent(client: Client, ops: seq<OutPoint>)
    | UnregisterSpent(client: Client, op: OutPoint)
    | RegisterAddr(client: Client, addrs: seq<Addr>)
    | UnregisterAddr(client: Client, addr: Addr)
    | RegisterMempoolTxs(client: Client)
    | UnregisterMempoolTxs(client: Client)

  // ---------------------------------------------------------------- the tables as relations

  datatype Tables = Tables(watch: Watch, listen: Listen, blocks: set<Client>, txs: set<Client>, clients: set<Client>)

  ghost function Next(t: Tables, m: Message): Tables {
    match m
    case ConnectBlock(txs) => t.(watch := AfterBlock(t.watch, t.listen, txs))
    case DisconnectBlock(_) => t
    case AcceptTx(tx, _) => t.(watch := AfterTx(t.watch, t.listen, tx, false))
    case RegisterBlocks(c) => t.(blocks := t.blocks + {c})
    case UnregisterBlocks(c) => t.(blocks := t.blocks - {c})
    case RegisterClient(c) => t.(clients := t.clients + {c})
    case UnregisterClient(c) =>
      Tables((set p | p in t.watch && p.1 != c), (set p | p in t.listen && p.1 != c),
             t.blocks - {c}, t.txs - {c}, t.clients - {c})
    case RegisterSpent(c, ops) => t.(watch := t.watch + set op | op in ops :: (op, c))
    case UnregisterSpent(c, op) => t.(watch := t.watch - {(op, c)})
    case RegisterAddr(c, addrs) => t.(listen := t.listen + set a | a in addrs :: (a, c))
    case UnregisterAddr(c, a) => t.(listen := t.listen - {(a, c)})
    case RegisterMempoolTxs(c) => t.(txs := t.txs + {c})
    case UnregisterMempoolTxs(c) => t.(txs := t.txs - {c})
  }

  ghost function Run(t: Tables, ms: seq<Message>): Tables {
    if ms == [] then t else Next(Run(t, ms[..|ms| - 1]), ms[|ms| - 1])
  }

  ghost predicate Absent(t: Tables, c: Client) {
    && (forall p :: p in t.watch ==> p.1 != c)
    && (forall p :: p in t.listen ==> p.1 != c)
    && c !in t.blocks + t.txs + t.clients
  }

  /** The messages by which a client itself asks for something. */
  predicate Registers(m: Message, c: Client) {
    (m.RegisterBlocks? || m.RegisterClient? || m.RegisterSpent? || m.RegisterAddr? || m.RegisterMempoolTxs?)
    && m.client == c
  }

  lemma {:induction false} BlockAddsListenersOnly(w: Watch, a: Listen, txs: seq<Tx>, c: Client)
    requires (forall p :: p in w ==> p.1 != c) && forall p :: p in a ==> p.1 != c
    ensures forall p :: p in AfterBlock(w, a, txs) ==> p.1 != c
  {
    if txs != [] {
      BlockAddsListenersOnly(w, a, txs[..|txs| - 1], c);
    }
  }

  lemma NextKeepsAbsent(t: Tables, m: Message, c: Client)
    requires Absent(t, c) && !Registers(m, c)
    ensures Absent(Next(t, m), c)
  {
    match m
    case ConnectBlock(txs) => BlockAddsListenersOnly(t.watch, t.listen, txs, c);
    case _ =>
  }

  /** A client that unregistered is in no table, and stays out until it asks for something again. */
  lemma {:induction false} UnregisteredStaysOut(t: Tables, c: Client, ms: seq<Message>)
    requires forall m :: m in ms ==> !Registers(m, c)
    ensures Absent(Run(Next(t, UnregisterClient(c)), ms), c)
  {
    if ms != [] {
      UnregisteredStaysOut(t, c, ms[..|ms| - 1]);
      NextKeepsAbsent(Run(Next(t, UnregisterClient(c)), ms[..|ms| - 1]), ms[|ms| - 1], c);
    }
  }

  // ---------------------------------------------------------------- who is told what

  /** The clients that watch one of these outpoints. */
  ghost function Watchers(w: Watch, ops: seq<OutPoint>): (r: set<Client>)
    ensures forall c: Client :: c in r <==> exists op :: op in ops && (op, c) in w
  {
    set p | p in w && p.0 in ops :: p.1
  }

  /** The clients that listen to an address that some output pays. */
  ghost function Payees(a: Listen, outs: seq<seq<Addr>>): (r: set<Client>)
    ensures forall c: Client :: c in r <==> exists i :: 0 <= i < |outs| && PaysAny(a, outs[i], c)
  {
    set i, p | 0 <= i < |outs| && p in a && PaysAny(a, outs[i], p.1) :: p.1
  }

  type Log = seq<(Client, Notification)>

  /** From one log to the other these clients are told this, once each, and nothing else is said. */
  ghost predicate Told(start: Log, log: Log, who: set<Client>, n: Notification) {
    && start <= log
    && forall e :: multiset(log)[e] == multiset(start)[e] + if e.1 == n && e.0 in who then 1 else 0
  }

  /** What a client is told that may have been told already. */
  function News(c: Client, n: Notification, notified: set<Client>): Log {
    if c in notified then [] else [(c, n)]
  }

  lemma ToldOneMore(start: Log, log: Log, who: set<Client>, n: Notification, c: Client)
    requires Told(start, log, who, n)
    ensures Told(start, log + News(c, n, who), who + {c}, n)
  {
    assert c in who ==> who + {c} == who && log + News(c, n, who) == log;
  }

  /** Mempool spends of newly watched outpoints are announced at once, to all who watch an input. */
  ghost predicate ToldSpends(start: Log, log: Log, w: Watch, spends: set<Tx>) {
    && start <= log
    && forall e :: multiset(log)[e] == multiset(start)[e] +
                                       if e.1.RedeemingTx? && !e.1.confirmed && e.1.tx in spends
                                          && e.0 in Watchers(w, e.1.tx.ins) then 1 else 0
  }

  lemma ToldSpendMore(start: Log, log: Log, log': Log, w: Watch, spends: set<Tx>, s: Tx)
    requires ToldSpends(start, log, w, spends) && s !in spends
    requires Told(log, log', Watchers(w, s.ins), RedeemingTx(s, false))
    ensures ToldSpends(start, log', w, spends + {s})
  {
  }

  ghost predicate MempoolSpend(m: Notification, tx: Tx, pool: Pool) {
    m.RedeemingTx? && !m.confirmed && exists op :: op in pool && op.hash == tx.hash && pool[op] == m.tx
  }

  /** The recvtx notifications go to these clients, once each; the rest are spends of tx's outputs. */
  ghost predicate ToldPayees(start: Log, log: Log, who: set<Client>, n: Notification, tx: Tx, pool: Pool) {
    && start <= log
    && (forall e: (Client, Notification) :: e.1.RecvTx? ==>
          multiset(log)[e] == multiset(start)[e] + if e.1 == n && e.0 in who then 1 else 0)
    && (forall e: (Client, Notification) :: !e.1.RecvTx? && multiset(log)[e] != multiset(start)[e] ==>
          MempoolSpend(e.1, tx, pool))
  }

  /** Watching one output announces its spends; then the client is told of the payment. */
  lemma ToldPayee(start: Log, log: Log, who: set<Client>, n: Notification, tx: Tx, pool: Pool,
                  log': Log, w: Watch, op: OutPoint, c: Client)
    requires n.RecvTx? && ToldPayees(start, log, who, n, tx, pool)
    requires op.hash == tx.hash && ToldSpends(log, log', w, set o | o in [op] && o in pool :: pool[o])
    ensures ToldPayees(start, log' + News(c, n, who), who + {c}, n, tx, pool)
  {
    assert multiset(log' + News(c, n, who)) == multiset(log') + multiset(News(c, n, who));
  }

  /** The notifications of one transaction: first its inputs, then its outputs. */
  ghost predicate ToldTx(start: Log, log: Log, w: Watch, a: Listen, tx: Tx, confirmed: bool, pool: Pool) {
    exists between ::
      && Told(start, between, Watchers(w, tx.ins), RedeemingTx(tx, confirmed))
      && ToldPayees(between, log, Payees(a, tx.outs), RecvTx(tx, confirmed), tx, pool)
  }

  ghost predicate ToldBlock(start: Log, log: Log, w: Watch, a: Listen, txs: seq<Tx>, pool: Pool)
    decreases txs
  {
    if txs == [] then log == start
    else
      var n := |txs| - 1;
      exists between ::
        && ToldBlock(start, between, w, a, txs[..n], pool)
        && ToldTx(between, log, AfterBlock(w, a, txs[..n]), a, txs[n], true, pool)
  }

  /** Everything that is said while a message is handled. */
  ghost predicate ToldFor(start: Log, log: Log, t: Tables, m: Message, pool: Pool) {
    match m
    case ConnectBlock(txs) =>
      exists between ::
        ToldBlock(start, between, t.watch, t.listen, txs, pool) && Told(between, log, t.blocks, BlockConnected(txs))
    case DisconnectBlock(txs) => Told(start, log, t.blocks, BlockDisconnected(txs))
    case AcceptTx(tx, isNew) =>
      exists between ::
        && Told(start, between, if isNew then t.txs else {}, TxAccepted(tx))
        && ToldTx(between, log, t.watch, t.listen, tx, false, pool)
    case RegisterSpent(c, ops) =>
      ToldSpends(start, log, Next(t, m).watch, set op | op in ops && op in pool :: pool[op])
    case _ => log == start
  }

  lemma {:induction false} NothingToTell(log: Log, txs: seq<Tx>, pool: Pool)
    ensures AfterBlock({}, {}, txs) == {}
    ensures ToldBlock(log, log, {}, {}, txs, pool)
  {
    if txs != [] {
      var n := |txs| - 1;
      NothingToTell(log, txs[..n], pool);
      assert Watchers({}, txs[n].ins) == {} && Payees({}, txs[n].outs) == {};
      assert Told(log, log, {}, RedeemingTx(txs[n], true));
      assert ToldPayees(log, log, {}, RecvTx(txs[n], true), txs[n], pool);
      assert ToldTx(log, log, {}, {}, txs[n], true, pool);
    }
  }

  lemma ToldBlockMore(start: Log, between: Log, log: Log, w: Watch, a: Listen, txs: seq<Tx>, i: nat, pool: Pool)
    requires i < |txs| && ToldBlock(start, between, w, a, txs[..i], pool)
    requires ToldTx(between, log, AfterBlock(w, a, txs[..i]), a, txs[i], true, pool)
    ensures ToldBlock(start, log, w, a, txs[..i + 1], pool)
    ensures AfterTx(AfterBlock(w, a, txs[..i]), a, txs[i], true) == AfterBlock(w, a, txs[..i + 1])
  {
    assert txs[..i + 1][..i] == txs[..i];
  }

  ghost function Upto(tx: Tx, i: nat): Tx
    requires i <= |tx.outs|
  {
    tx.(outs := tx.outs[..i])
  }

  ghost function On(op: OutPoint, who: set<Client>): Watch {
    set c | c in who :: (op, c)
  }

  ghost function Listeners(a: Listen, to: seq<Addr>): (r: set<Client>)
    ensures forall c: Client :: c in r <==> PaysAny(a, to, c)
  {
    set p | p in a && p.0 in to :: p.1
  }

  lemma ListenersOneMore(a: Listen, to: seq<Addr>, j: nat)
    requires j < |to|
    ensures Listeners(a, to[..j + 1]) == Listeners(a, to[..j]) + Listeners(a, [to[j]])
  {
    assert to[..j + 1] == to[..j] + [to[j]];
  }

  lemma OnListenersOneMore(w: Watch, op: OutPoint, a: Listen, to: seq<Addr>, j: nat)
    requires j < |to|
    ensures w + On(op, Listeners(a, to[..j])) + On(op, Listeners(a, [to[j]])) == w + On(op, Listeners(a, to[..j + 1]))
  {
    ListenersOneMore(a, to, j);
  }

  lemma ListenersAre(ix: Index<Addr>, addr: Addr)
    ensures Listeners(Pairs(ix), [addr]) == Clients(ix, addr)
  {
    assert addr in [addr];
  }

  lemma PaidOneMore(w: Watch, a: Listen, tx: Tx, i: nat)
    requires i < |tx.outs|
    ensures w + Paid(a, Upto(tx, i)) + On(OutPoint(tx.hash, i), Listeners(a, tx.outs[i])) ==
            w + Paid(a, Upto(tx, i + 1))
  {
    forall op, c: Client
      ensures Pays(a, Upto(tx, i + 1), op, c) <==>
              Pays(a, Upto(tx, i), op, c) || (op == OutPoint(tx.hash, i) && c in Listeners(a, tx.outs[i]))
    {
    }
  }

  lemma PaidNone(w: Watch, a: Listen, tx: Tx)
    ensures w + Paid(a, Upto(tx, 0)) == w
    ensures Payees(a, tx.outs[..0]) == {}
  {
  }

  lemma PayeesMore(a: Listen, outs: seq<seq<Addr>>, i: nat)
    requires i < |outs|
    ensures Payees(a, outs[..i]) + Listeners(a, outs[i]) == Payees(a, outs[..i + 1])
  {
    forall c: Client
      ensures c in Payees(a, outs[..i + 1]) <==> c in Payees(a, outs[..i]) || c in Listeners(a, outs[i])
    {
      PayeesOneMore(a, outs, i, c);
    }
  }

  lemma PayeesOneMore(a: Listen, outs: seq<seq<Addr>>, i: nat, c: Client)
    requires i < |outs|
    ensures c in Payees(a, outs[..i + 1]) <==> c in Payees(a, outs[..i]) || PaysAny(a, outs[i], c)
  {
    var longer, shorter := outs[..i + 1], outs[..i];
    assert longer[i] == outs[i];
    assert forall j :: 0 <= j < i ==> longer[j] == shorter[j];
  }

  lemma ReleaseOneMore(w: Watch, ins: seq<OutPoint>, i: nat, confirmed: bool)
    requires i < |ins|
    ensures Released(w, ins[..i + 1], confirmed) == Released(Released(w, ins[..i], confirmed), [ins[i]], confirmed)
    ensures Watchers(w, ins[..i + 1]) ==
            Watchers(w, ins[..i]) + Watchers(Released(w, ins[..i], confirmed), [ins[i]])
  {
    assert ins[..i + 1] == ins[..i] + [ins[i]];
    var rest := Released(w, ins[..i], confirmed);
    forall c: Client
      ensures c in Watchers(w, ins[..i + 1]) <==> c in Watchers(w, ins[..i]) || c in Watchers(rest, [ins[i]])
    {
      if (ins[i], c) in w && ins[i] !in ins[..i] {
        assert (ins[i], c) in rest;
        assert ins[i] in [ins[i]];
      }
    }
  }

  lemma ClientsWatch(ix: Index<OutPoint>, op: OutPoint)
    ensures Watchers(Pairs(ix), [op]) == Clients(ix, op)
  {
    assert op in [op];
    forall c: Client
      ensures c in Watchers(Pairs(ix), [op]) <==> c in Clients(ix, op)
    {
      PairsAre(ix, op, c);
    }
  }

  ghost function ReleasedFor(w: Watch, op: OutPoint, who: set<Client>, confirmed: bool): Watch {
    if confirmed then set p | p in w && !(p.0 == op && p.1 in who) else w
  }

  lemma ReleasedForAll(ix: Index<OutPoint>, op: OutPoint, confirmed: bool)
    ensures ReleasedFor(Pairs(ix), op, {}, confirmed) == Pairs(ix)
    ensures ReleasedFor(Pairs(ix), op, Clients(ix, op), confirmed) == Released(Pairs(ix), [op], confirmed)
  {
    assert forall p :: p in Pairs(ix) && p.0 == op ==> p.1 in Clients(ix, op);
    assert op in [op];
  }

  lemma ReleasedForMore(w: Watch, op: OutPoint, who: set<Client>, c: Client, confirmed: bool)
    ensures ReleasedFor(ReleasedFor(w, op, who, confirmed), op, {c}, confirmed) ==
            ReleasedFor(w, op, who + {c}, confirmed)
  {
  }

  lemma NobodyWatches(ix: Index<OutPoint>, ins: seq<OutPoint>, confirmed: bool)
    requires |ix.byKey| == 0
    ensures Released(Pairs(ix), ins, confirmed) == Pairs(ix)
    ensures Watchers(Pairs(ix), ins) == {}
  {
  }

  lemma NobodyListens(w: Watch, ix: Index<Addr>, tx: Tx)
    requires |ix.byKey| == 0
    ensures w + Paid(Pairs(ix), tx) == w
    ensures Payees(Pairs(ix), tx.outs) == {}
  {
  }

  lemma NoKeysNoPairs<K>(ix: Index<K>)
    requires |ix.byKey| == 0
    ensures Pairs(ix) == {}
  {
  }

  lemma OneOp(op: OutPoint, c: Client)
    ensures (set o | o in [op] :: (o, c)) == On(op, {c})
  {
    assert op in [op];
  }

  lemma OnOneMore(w: Watch, op: OutPoint, who: set<Client>, c: Client)
    ensures w + On(op, who) + On(op, {c}) == w + On(op, who + {c})
  {
  }

  /** The mempool transactions that spend one of these outpoints. */
  method SpendsOf(newOps: seq<OutPoint>, pool: Pool) returns (spends: set<Tx>)
    ensures spends == set op | op in newOps && op in pool :: pool[op]
  {
    spends := {};
    for i := 0 to |newOps|
      invariant spends == set op | op in newOps[..i] && op in pool :: pool[op]
    {
      assert newOps[..i + 1] == newOps[..i] + [newOps[i]];
      if newOps[i] in pool {
        spends := spends + {pool[newOps[i]]};
      }
    }
    assert newOps[..|newOps|] == newOps;
  }

  ghost function Messages(ms: seq<(Message, Pool)>): (r: seq<Message>)
    ensures |r| == |ms| && forall i :: 0 <= i < |r| ==> r[i] == ms[i].0
  {
    seq(|ms|, i requires 0 <= i < |ms| => ms[i].0)
  }

  // ---------------------------------------------------------------- the handler

  class Manager {
    var ops: Index<OutPoint>
    var addrs: Index<Addr>
    var blockClients: set<Client>
    var txClients: set<Client>
    var clients: set<Client>
    var sent: Log

    ghost predicate Valid()
      reads this
    {
      Consistent(ops) && Consistent(addrs)
    }

    ghost function View(): Tables
      reads this
    {
      Tables(Pairs(ops), Pairs(addrs), blockClients, txClients, clients)
    }

    constructor ()
      ensures Valid() && View() == Tables({}, {}, {}, {}, {}) && sent == []
    {
      ops, addrs := Index(map[], map[]), Index(map[], map[]);
      blockClients, txClients, clients, sent := {}, {}, {}, [];
    }

    /** Tells a client unless it has been told. */
    method TellOnce(c: Client, n: Notification, notified0: set<Client>) returns (notified: set<Client>)
      modifies this`sent
      ensures notified == notified0 + {c}
      ensures sent == old(sent) + News(c, n, notified0)
    {
      notified := notified0;
      if c !in notified {
        sent := sent + [(c, n)];
        notified := notified + {c};
      }
    }

    /** Tells each of these clients. */
    method TellAll(who: set<Client>, n: Notification)
      modifies this`sent
      ensures Told(old(sent), sent, who, n)
    {
      var todo := who;
      while todo != {}
        invariant todo <= who && Told(old(sent), sent, who - todo, n)
        decreases |todo|
      {
        var c := Pick(todo);
        ToldOneMore(old(sent), sent, who - todo, n, c);
        assert who - (todo - {c}) == who - todo + {c};
        sent := sent + [(c, n)];
        todo := todo - {c};
      }
      assert who - todo == who;
    }

    /** removeSpentRequest, if the spend is confirmed. */
    method Release(op: OutPoint, c: Client, confirmed: bool)
      requires Valid()
      modifies this`ops
      ensures Valid()
      ensures Pairs(ops) == ReleasedFor(old(Pairs(ops)), op, {c}, confirmed)
    {
      if confirmed {
        RemovePairKeeps(ops, op, c);
        ops := RemovePair(ops, op, c);
      }
    }

    /** The inner loop of notifyForTxIns: the clients of one spent outpoint. */
    method NotifyWatchers(op: OutPoint, n: Notification, confirmed: bool, ghost start: Log, notified0: set<Client>)
      returns (notified: set<Client>)
      requires Valid() && Told(start, sent, notified0, n)
      modifies this`ops, this`sent
      ensures Valid()
      ensures Pairs(ops) == Released(old(Pairs(ops)), [op], confirmed)
      ensures notified == notified0 + old(Clients(ops, op))
      ensures Told(start, sent, notified, n)
    {
      notified := notified0;
      var cmap := Clients(ops, op);
      ghost var w := Pairs(ops);
      var todo := cmap;
      ReleasedForAll(ops, op, confirmed);
      while todo != {}
        invariant Valid() && todo <= cmap
        invariant Pairs(ops) == ReleasedFor(w, op, cmap - todo, confirmed)
        invariant notified == notified0 + (cmap - todo)
        invariant Told(start, sent, notified, n)
        decreases |todo|
      {
        var c := Pick(todo);
        ReleasedForMore(w, op, cmap - todo, c, confirmed);
        assert cmap - (todo - {c}) == cmap - todo + {c};
        Release(op, c, confirmed);
        ToldOneMore(start, sent, notified, n, c);
        notified := TellOnce(c, n, notified);
        todo := todo - {c};
      }
      assert cmap - todo == cmap;
    }

    /** Tells everyone who watches an input, once each; a block releases the outpoints it spends. */
    method NotifyForTxIns(tx: Tx, confirmed: bool)
      requires Valid()
      modifies this`ops, this`sent
      ensures Valid()
      ensures Pairs(ops) == Released(old(Pairs(ops)), tx.ins, confirmed)
      ensures Told(old(sent), sent, Watchers(old(Pairs(ops)), tx.ins), RedeemingTx(tx, confirmed))
    {
      if |ops.byKey| == 0 {
        NobodyWatches(ops, tx.ins, confirmed);
        return;
      }
      ghost var w := Pairs(ops);
      var n := RedeemingTx(tx, confirmed);
      var notified: set<Client> := {};
      for i := 0 to |tx.ins|
        invariant Valid()
        invariant Pairs(ops) == Released(w, tx.ins[..i], confirmed)
        invariant notified == Watchers(w, tx.ins[..i])
        invariant Told(old(sent), sent, notified, n)
      {
        ReleaseOneMore(w, tx.ins, i, confirmed);
        ClientsWatch(ops, tx.ins[i]);
        if tx.ins[i] in ops.byKey {
          notified := NotifyWatchers(tx.ins[i], n, confirmed, old(sent), notified);
        }
      }
      assert tx.ins[..|tx.ins|] == tx.ins;
    }

    /** Watches these outpoints for a client, and announces the spends that the mempool has of them. */
    method AddSpentRequests(c: Client, newOps: seq<OutPoint>, pool: Pool)
      requires Valid()
      modifies this`ops, this`sent
      ensures Valid()
      ensures Pairs(ops) == old(Pairs(ops)) + set op | op in newOps :: (op, c)
      ensures ToldSpends(old(sent), sent, Pairs(ops), set op | op in newOps && op in pool :: pool[op])
    {
      ops := AddAll(ops, newOps, c);
      var spends := SpendsOf(newOps, pool);
      TellSpends(spends);
    }

    method TellSpends(spends: set<Tx>)
      requires Valid()
      modifies this`ops, this`sent
      ensures Valid() && Pairs(ops) == old(Pairs(ops))
      ensures ToldSpends(old(sent), sent, Pairs(ops), spends)
    {
      var todo := spends;
      while todo != {}
        invariant Valid() && Pairs(ops) == old(Pairs(ops)) && todo <= spends
        invariant ToldSpends(old(sent), sent, Pairs(ops), spends - todo)
        decreases |todo|
      {
        var s := Pick(todo);
        ghost var before := sent;
        NotifyForTxIns(s, false);
        ToldSpendMore(old(sent), before, sent, Pairs(ops), spends - todo, s);
        assert spends - (todo - {s}) == spends - todo + {s};
        todo := todo - {s};
      }
      assert spends - todo == spends;
    }

    /** One client of one address that output `op` pays. */
    method PayClient(op: OutPoint, c: Client, tx: Tx, n: Notification, pool: Pool, ghost start: Log,
                     notified0: set<Client>)
      returns (notified: set<Client>)
      requires Valid() && op.hash == tx.hash && n.RecvTx? && ToldPayees(start, sent, notified0, n, tx, pool)
      modifies this`ops, this`sent
      ensures Valid()
      ensures Pairs(ops) == old(Pairs(ops)) + On(op, {c})
      ensures notified == notified0 + {c}
      ensures ToldPayees(start, sent, notified, n, tx, pool)
    {
      AddSpentRequests(c, [op], pool);
      OneOp(op, c);
      ToldPayee(start, old(sent), notified0, n, tx, pool, sent, Pairs(ops), op, c);
      notified := TellOnce(c, n, notified0);
    }

    /** The innermost loop of notifyForTxOuts: the clients of one address that output `op` pays. */
    method PayAddress(op: OutPoint, addr: Addr, tx: Tx, n: Notification, pool: Pool, ghost start: Log,
                      notified0: set<Client>)
      returns (notified: set<Client>)
      requires Valid() && op.hash == tx.hash && n.RecvTx? && ToldPayees(start, sent, notified0, n, tx, pool)
      modifies this`ops, this`sent
      ensures Valid()
      ensures Pairs(ops) == old(Pairs(ops)) + On(op, Clients(addrs, addr))
      ensures notified == notified0 + Clients(addrs, addr)
      ensures ToldPayees(start, sent, notified, n, tx, pool)
    {
      notified := notified0;
      var cmap := Clients(addrs, addr);
      ghost var w := Pairs(ops);
      var todo := cmap;
      while todo != {}
        invariant Valid() && todo <= cmap
        invariant Pairs(ops) == w + On(op, cmap - todo)
        invariant notified == notified0 + (cmap - todo)
        invariant ToldPayees(start, sent, notified, n, tx, pool)
        decreases |todo|
      {
        var c := Pick(todo);
        OnOneMore(w, op, cmap - todo, c);
        assert cmap - (todo - {c}) == cmap - todo + {c};
        notified := PayClient(op, c, tx, n, pool, start, notified);
        todo := todo - {c};
      }
      assert cmap - todo == cmap;
    }

    /** The middle loop of notifyForTxOuts: the addresses that one output pays. */
    method PayOutput(op: OutPoint, to: seq<Addr>, tx: Tx, n: Notification, pool: Pool, ghost start: Log,
                     notified0: set<Client>)
      returns (notified: set<Client>)
      requires Valid() && op.hash == tx.hash && n.RecvTx? && ToldPayees(start, sent, notified0, n, tx, pool)
      modifies this`ops, this`sent
      ensures Valid()
      ensures Pairs(ops) == old(Pairs(ops)) + On(op, Listeners(Pairs(addrs), to))
      ensures notified == notified0 + Listeners(Pairs(addrs), to)
      ensures ToldPayees(start, sent, notified, n, tx, pool)
    {
      notified := notified0;
      ghost var w := Pairs(ops);
      ghost var a := Pairs(addrs);
      for j := 0 to |to|
        invariant Valid()
        invariant Pairs(ops) == w + On(op, Listeners(a, to[..j]))
        invariant notified == notified0 + Listeners(a, to[..j])
        invariant ToldPayees(start, sent, notified, n, tx, pool)
      {
        ListenersOneMore(a, to, j);
        OnListenersOneMore(w, op, a, to, j);
        ListenersAre(addrs, to[j]);
        if to[j] in addrs.byKey {
          notified := PayAddress(op, to[j], tx, n, pool, start, notified);
        }
      }
      assert to[..|to|] == to;
    }

    /** Tells everyone who listens to a paid address, once each, and watches the paid outputs for them. */
    method NotifyForTxOuts(tx: Tx, confirmed: bool, pool: Pool)
      requires Valid()
      modifies this`ops, this`sent
      ensures Valid()
      ensures Pairs(ops) == old(Pairs(ops)) + Paid(Pairs(addrs), tx)
      ensures ToldPayees(old(sent), sent, Payees(Pairs(addrs), tx.outs), RecvTx(tx, confirmed), tx, pool)
    {
      ghost var w := Pairs(ops);
      ghost var a := Pairs(addrs);
      if |addrs.byKey| == 0 {
        NobodyListens(w, addrs, tx);
        return;
      }
      PaidNone(w, a, tx);
      var n := RecvTx(tx, confirmed);
      var notified: set<Client> := {};
      for i := 0 to |tx.outs|
        invariant Valid()
        invariant Pairs(ops) == w + Paid(a, Upto(tx, i))
        invariant notified == Payees(a, tx.outs[..i])
        invariant ToldPayees(old(sent), sent, notified, n, tx, pool)
      {
        PaidOneMore(w, a, tx, i);
        PayeesMore(a, tx.outs, i);
        notified := PayOutput(OutPoint(tx.hash, i), tx.outs[i], tx, n, pool, old(sent), notified);
      }
      assert tx.outs[..|tx.outs|] == tx.outs;
    }

    method NotifyForTx(tx: Tx, confirmed: bool, pool: Pool)
      requires Valid()
      modifies this`ops, this`sent
      ensures Valid()
      ensures Pairs(ops) == AfterTx(old(Pairs(ops)), Pairs(addrs), tx, confirmed)
      ensures ToldTx(old(sent), sent, old(Pairs(ops)), Pairs(addrs), tx, confirmed, pool)
    {
      if |ops.byKey| != 0 {
        NotifyForTxIns(tx, confirmed);
      } else {
        NobodyWatches(ops, tx.ins, confirmed);
      }
      assert Told(old(sent), sent, Watchers(old(Pairs(ops)), tx.ins), RedeemingTx(tx, confirmed));
      if |addrs.byKey| != 0 {
        NotifyForTxOuts(tx, confirmed, pool);
      } else {
        NobodyListens(Pairs(ops), addrs, tx);
      }
    }

    method ConnectTxs(txs: seq<Tx>, pool: Pool)
      requires Valid()
      modifies this`ops, this`sent
      ensures Valid()
      ensures Pairs(ops) == AfterBlock(old(Pairs(ops)), Pairs(addrs), txs)
      ensures ToldBlock(old(sent), sent, old(Pairs(ops)), Pairs(addrs), txs, pool)
    {
      ghost var w := Pairs(ops);
      if |ops.byKey| != 0 || |addrs.byKey| != 0 {
        for i := 0 to |txs|
          invariant Valid() && Pairs(ops) == AfterBlock(w, Pairs(addrs), txs[..i])
          invariant ToldBlock(old(sent), sent, w, Pairs(addrs), txs[..i], pool)
        {
          ghost var before := sent;
          NotifyForTx(txs[i], true, pool);
          ToldBlockMore(old(sent), before, sent, w, Pairs(addrs), txs, i, pool);
        }
        assert txs[..|txs|] == txs;
      } else {
        NoKeysNoPairs(ops);
        NoKeysNoPairs(addrs);
        NothingToTell(sent, txs, pool);
      }
    }

    /** One message from the queue. */
    method Handle(m: Message, pool: Pool)
      requires Valid()
      modifies this
      ensures Valid() && View() == Next(old(View()), m)
      ensures ToldFor(old(sent), sent, old(View()), m, pool)
    {
      match m
      case ConnectBlock(txs) =>
        ConnectTxs(txs, pool);
        TellAll(blockClients, BlockConnected(txs));
      case DisconnectBlock(txs) =>
        TellAll(blockClients, BlockDisconnected(txs));
      case AcceptTx(tx, isNew) =>
        if isNew {
          TellAll(txClients, TxAccepted(tx));
        }
        NotifyForTx(tx, false, pool);
      case RegisterBlocks(c) => blockClients := blockClients + {c};
      case UnregisterBlocks(c) => blockClients := blockClients - {c};
      case RegisterClient(c) => clients := clients + {c};
      case UnregisterClient(c) => Unregister(c);
      case RegisterSpent(c, newOps) => AddSpentRequests(c, newOps, pool);
      case UnregisterSpent(c, op) =>
        RemovePairKeeps(ops, op, c);
        ops := RemovePair(ops, op, c);
      case RegisterAddr(c, newAddrs) => addrs := AddAll(addrs, newAddrs, c);
      case UnregisterAddr(c, addr) =>
        RemovePairKeeps(addrs, addr, c);
        addrs := RemovePair(addrs, addr, c);
      case RegisterMempoolTxs(c) => txClients := txClients + {c};
      case UnregisterMempoolTxs(c) => txClients := txClients - {c};
    }

    /** The loop of the handler over the messages of the queue, each with the mempool of its moment. */
    method Serve(ms: seq<(Message, Pool)>)
      requires Valid()
      modifies this
      ensures Valid() && View() == Run(old(View()), Messages(ms))
    {
      assert Messages(ms[..0]) == [];
      for i := 0 to |ms|
        invariant Valid() && View() == Run(old(View()), Messages(ms[..i]))
      {
        Handle(ms[i].0, ms[i].1);
        assert Messages(ms[..i + 1])[..i] == Messages(ms[..i]);
      }
      assert ms[..|ms|] == ms;
    }

    method Unregister(c: Client)
      requires Valid()
      modifies this`blockClients, this`txClients, this`ops, this`addrs, this`clients
      ensures Valid() && View() == Next(old(View()), UnregisterClient(c))
      ensures Absent(View(), c) && Requests(ops, c) == {} && Requests(addrs, c) == {}
    {
      blockClients := blockClients - {c};
      txClients := txClients - {c};
      ops := Forget(ops, c);
      addrs := Forget(addrs, c);
      clients := clients - {c};
    }
  }
}
