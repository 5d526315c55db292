/**
 * Rescans in particular circumstances (btcd/rpcwebsocket.go): while the chain is at rest, while one block
 * replaces another, and while the chain grows past the first block that is asked for.
 */
module RescanCases {
  import opened Options
  import opened Subscriptions
  import opened Rescan
  import opened RescanChains
  import opened RescanRun

  // ---------------------------------------------------------------- a chain at rest

  /** One chain throughout, the store works and the client stays; the ticker ticks as it likes. */
  ghost predicate AtRest(env: Env, chain: seq<Block>) {
    forall t :: 0 <= t < |env| ==> env[t].chain == chain && env[t].store == Works && !env[t].quit
  }

  /** The blocks from start up to the end asked for, or to the tip. */
  function Asked(chain: seq<Block>, start: nat, maxBlock: int): seq<Block> {
    var end := if maxBlock < |chain| then maxBlock else |chain|;
    if start < end then chain[start..end] else []
  }

  lemma RestIsSmooth(env: Env, chain: seq<Block>)
    requires AtRest(env, chain)
    ensures Smooth(env)
  {
    forall t: nat | t < |env|
      ensures Calm(env, t)
    {
    }
  }

  lemma ScannedIsThere(env: Env, chain: seq<Block>, scanned: seq<Block>, start: nat, i: nat)
    requires Sound(env) && AtRest(env, chain) && OneRun(env, scanned, start) && i < |scanned|
    ensures start + i < |chain| && scanned[i] == chain[start + i]
  {
    var t, k :| 0 <= t < |env| && 0 <= k < |env[t].chain| && env[t].chain[k] == scanned[i];
    assert Rooted(env, t);
  }

  /** What was scanned is the beginning of what was asked for, and all of it if the rescan is done. */
  lemma RestIsScanned(env: Env, chain: seq<Block>, start: nat, maxBlock: int, scanned: seq<Block>, done: bool)
    requires Sound(env) && env != [] && AtRest(env, chain) && OneRun(env, scanned, start)
    requires scanned != [] ==> start + |scanned| <= maxBlock
    requires done ==> start + |scanned| >= maxBlock || Ended(env, start + |scanned|)
    ensures scanned <= Asked(chain, start, maxBlock)
    ensures done ==> scanned == Asked(chain, start, maxBlock)
  {
    var n := |scanned|;
    forall i: nat | i < n
      ensures start + i < |chain| && scanned[i] == chain[start + i]
    {
      ScannedIsThere(env, chain, scanned, start, i);
    }
    if n > 0 {
      ScannedIsThere(env, chain, scanned, start, n - 1);
      assert scanned == chain[start..start + n];
    }
  }

  /**
   * What a rescan of a chain at rest comes to: the client hears of the blocks scanned as much as it waits
   * for; if that is all, every block that was asked for was scanned, and what the fold leaves is registered.
   */
  ghost predicate AllScanned(j: Job, v: State, chain: seq<Block>, at: seq<nat>, res: Outcome,
                             registered: Option<set<OutPoint>>)
    requires 0 <= j.start
  {
    var blocks := Asked(chain, j.start, j.maxBlock);
    && |at| <= |blocks|
    && var told := Report(j.before.unspent, j.addrs, j.env, blocks[..|at|], at);
       && Hears(j.before, told, v)
       && (j.before.patience >= |told| ==>
             && |at| == |blocks| && res == Done(Last(blocks))
             && v.unspent == AfterBlocks(j.before.unspent, j.addrs, blocks)
             && registered == if j.start < j.maxBlock == MAX_INT32 && |chain| < MAX_INT32 then Some(v.unspent)
                              else None)
  }

  /** While the chain is at rest, a rescan that has the moments it needs scans all that was asked for. */
  method RescanAtRest(wsc: WsClient, keys: Keys, env: Env, ghost chain: seq<Block>, start: nat, maxBlock: int)
    returns (res: Outcome, registered: Option<set<OutPoint>>, ghost at: seq<nat>)
    requires Sound(env) && env != [] && AtRest(env, chain)
    requires |env| >= 4 * |From(chain, start)| + 2
    modifies wsc, keys`unspent
    ensures AllScanned(Job(env, maxBlock, start, old(Now(wsc, keys)), keys.addrs), Now(wsc, keys), chain, at, res,
                       registered)
  {
    ghost var g, when;
    res, registered, g, when := ScanBlockChunks(wsc, keys, env, start, maxBlock);
    at := g.at;
    ghost var j := Job(env, maxBlock, start, old(Now(wsc, keys)), keys.addrs);
    RestResult(j, Now(wsc, keys), res, registered, g, chain);
  }

  lemma RestResult(j: Job, v: State, res: Outcome, registered: Option<set<OutPoint>>, g: Trace, chain: seq<Block>)
    requires Sound(j.env) && j.env != [] && AtRest(j.env, chain) && 0 <= j.start && Finished(j, v, res, g)
    requires |j.env| >= 4 * |From(chain, j.start)| + 2
    requires registered.Some? ==> j.start + |g.scanned| < j.maxBlock == MAX_INT32 && registered.value == v.unspent
    requires res.Done? && j.maxBlock == MAX_INT32 && j.start + |g.scanned| < j.maxBlock ==>
               (registered.None? <==> JustRecovered(g.looks))
    ensures AllScanned(j, v, chain, g.at, res, registered)
  {
    RestIsSmooth(j.env, chain);
    RestIsScanned(j.env, chain, j.start, j.maxBlock, g.scanned, res.Done?);
    NeverRecovers(j, g, res, chain);
    var blocks := Asked(chain, j.start, j.maxBlock);
    assert g.scanned == blocks[..|g.at|];
  }

  lemma NeverRecovers(j: Job, g: Trace, outcome: Outcome, chain: seq<Block>)
    requires AtRest(j.env, chain) && Tracked(j.env, g.looks, j.maxBlock, Some(outcome))
    ensures !JustRecovered(g.looks)
  {
    if g.looks != [] {
      assert RecoversRightly(j.env, g.looks[|g.looks| - 1], j.maxBlock);
    }
  }

  // ---------------------------------------------------------------- one block replaced by another

  /** The chain while a block is replaced by another between two queries. */
  ghost function Replacing(genesis: Block, a: Block, b: Block): Env {
    [Moment([genesis, a], Works, false, false), Moment([genesis, b], Works, false, false)]
  }

  lemma ReplacingIsSound(genesis: Block, a: Block, b: Block)
    requires genesis == Block(1, 0, 0, []) && a == Block(2, 1, 1, []) && b == Block(3, 1, 1, [])
    ensures Sound(Replacing(genesis, a, b))
    ensures !OnChain(Replacing(genesis, a, b), Look(1, 2, true))
    ensures !OnChain(Replacing(genesis, a, b), Look(1, 2, false))
  {
    var env := Replacing(genesis, a, b);
    forall s: nat, t: nat | s < |env| && t < |env|
      ensures Agree(env, s, t)
    {
    }
  }

  /**
   * One block replaced by another while a rescan through the current tip is about to scan it: the store
   * works, and yet the rescan ends with a database error instead of going on with the other block.
   */
  method OrdinaryReorganisation(wsc: WsClient, keys: Keys) returns (res: Outcome)
    modifies wsc, keys`unspent
    ensures res == DatabaseError
  {
    var genesis, a, b := Block(1, 0, 0, []), Block(2, 1, 1, []), Block(3, 1, 1, []);
    var env := [Moment([genesis, a], Works, false, false), Moment([genesis, b], Works, false, false)];
    ReplacingIsSound(genesis, a, b);
    assert env == Replacing(genesis, a, b);
    var registered; ghost var g, at;
    res, registered, g, at := ScanBlockChunks(wsc, keys, env, 1, MAX_INT32);
    assert FirstLook(env, 1, g.looks);
    assert g.looks[0] in {Look(1, 2, true), Look(1, 2, false)};
  }

  // ---------------------------------------------------------------- a rescan that registers too early

  ghost function Growing(genesis: Block, b: Block): Env {
    [Moment([genesis], Works, false, false), Moment([genesis, b], Works, false, false)]
  }

  lemma GrowingIsSound(genesis: Block, b: Block)
    requires genesis == Block(1, 0, 0, []) && b.hash == 2 && b.prev == 1 && b.height == 1
    ensures Sound(Growing(genesis, b))
  {
    var env := Growing(genesis, b);
    forall s: nat, t: nat | s < |env| && t < |env|
      ensures Agree(env, s, t)
    {
    }
  }

  /**
   * The chain ends before the first block when the list is fetched and has grown to it when the tip is
   * looked at: the client is registered with nothing to watch, although that block pays it.
   */
  method RegisteredTooEarly(wsc: WsClient, keys: Keys) returns (registered: Option<set<OutPoint>>)
    requires keys.addrs == {5} && keys.unspent == {}
    modifies wsc, keys`unspent
    ensures registered == Some({})
    ensures OutPoint(9, 0) in AfterBlocks({}, {5}, [Block(2, 1, 1, [Transaction(9, [], [[Dest(5, 5)]])])])
  {
    var to := [Dest(5, 5)];
    var tx := Transaction(9, [], [to]);
    var genesis, b := Block(1, 0, 0, []), Block(2, 1, 1, [tx]);
    var env := [Moment([genesis], Works, false, false), Moment([genesis, b], Works, false, false)];
    GrowingIsSound(genesis, b);
    assert env == Growing(genesis, b);
    var res; ghost var g, at;
    res, registered, g, at := ScanBlockChunks(wsc, keys, env, 1, MAX_INT32);
    assert to[0].printed in {5};
    assert [tx][..0] == [] && [b][..0] == [];
    assert OutPoint(9, 0) in AfterTransaction({}, {5}, tx);
  }
}
