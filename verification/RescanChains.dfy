/**
 * The main chain as a rescan sees it (btcd/blockchain/chain.go, btcd/blockchain/chainio.go): each query
 * meets the chain of its own moment, so a run is a sequence of moments.  Then what scanning blocks one
 * after the other amounts to: the unspent outpoints, and what the client is told.
 */
module RescanChains {
  import opened Options
  import opened Subscriptions
  import opened Rescan

  datatype Block = Block(hash: Hash, prev: Hash, height: nat, txs: seq<Transaction>)

  /** How the block store answers: it has the block, lacks it, or fails. */
  datatype Store = Works | Lacks | Fails

  /** What one query meets: the main chain, the store, the client's quit channel and the ticker. */
  datatype Moment = Moment(chain: seq<Block>, store: Store, quit: bool, tick: bool)

  type Env = seq<Moment>

  // ---------------------------------------------------------------- chains

  /** Consecutive heights from `lo` on, each block the parent of the next. */
  ghost predicate Linked(blocks: seq<Block>, lo: int) {
    && (forall i :: 0 <= i < |blocks| ==> blocks[i].height == lo + i)
    && (forall i :: 0 < i < |blocks| ==> blocks[i].prev == blocks[i - 1].hash)
  }

  ghost predicate OneBlockPerHash(a: seq<Block>, b: seq<Block>) {
    forall i, j :: 0 <= i < |a| && 0 <= j < |b| && a[i].hash == b[j].hash ==> a[i] == b[j]
  }

  /** Each chain runs from genesis, and a hash names one block throughout. */
  ghost predicate Sound(env: Env) {
    && (forall t :: 0 <= t < |env| ==> env[t].chain != [])
    && (forall t :: 0 <= t < |env| ==> Rooted(env, t))
    && (forall s, t :: 0 <= s < |env| && 0 <= t < |env| ==> Agree(env, s, t))
  }

  ghost predicate Rooted(env: Env, t: nat)
    requires t < |env|
  {
    Linked(env[t].chain, 0)
  }

  ghost predicate Agree(env: Env, s: nat, t: nat)
    requires s < |env| && t < |env|
  {
    OneBlockPerHash(env[s].chain, env[t].chain)
  }

  ghost predicate Known(env: Env, b: Block) {
    exists t, i :: 0 <= t < |env| && 0 <= i < |env[t].chain| && env[t].chain[i] == b
  }

  lemma SameHash(env: Env, a: Block, b: Block)
    requires Sound(env) && Known(env, a) && Known(env, b) && a.hash == b.hash
    ensures a == b
  {
    var s, i :| 0 <= s < |env| && 0 <= i < |env[s].chain| && env[s].chain[i] == a;
    var t, j :| 0 <= t < |env| && 0 <= j < |env[t].chain| && env[t].chain[j] == b;
    assert Agree(env, s, t);
  }

  // ---------------------------------------------------------------- queries

  function Hashes(blocks: seq<Block>): (r: seq<Hash>)
    ensures |r| == |blocks| && forall i :: 0 <= i < |r| ==> r[i] == blocks[i].hash
  {
    seq(|blocks|, i requires 0 <= i < |blocks| => blocks[i].hash)
  }

  /** The hashes of the main chain from lo up to but not including hi; none on senseless bounds. */
  function HeightRange(chain: seq<Block>, lo: int, hi: int): (r: Option<seq<Hash>>)
    ensures r.None? <==> lo < 0 || hi < lo
    ensures r.Some? && lo >= |chain| ==> r.value == []
    ensures r.Some? && lo < |chain| ==> lo + |r.value| == if hi > |chain| then |chain| else hi
    ensures r.Some? ==> forall i :: 0 <= i < |r.value| ==> r.value[i] == chain[lo + i].hash
  {
    if lo < 0 || hi < lo then None
    else if lo == hi || lo >= |chain| then Some([])
    else Some(Hashes(chain[lo..if hi > |chain| then |chain| else hi]))
  }

  datatype Lookup = Found(block: Block) | NotInMainChain | BlockNotFound | Failed

  function IndexOf(chain: seq<Block>, h: Hash): (r: Option<nat>)
    ensures r.Some? ==> r.value < |chain| && chain[r.value].hash == h
    ensures r.None? ==> forall i :: 0 <= i < |chain| ==> chain[i].hash != h
  {
    if chain == [] then None
    else if chain[|chain| - 1].hash == h then Some(|chain| - 1)
    else IndexOf(chain[..|chain| - 1], h)
  }

  /**
   * Only blocks of the main chain are looked up in the store.  A block that a reorganisation removed
   * is therefore never reported as BlockNotFound, the one error that leads to recovery.
   */
  function BlockByHash(m: Moment, h: Hash): (r: Lookup)
    ensures r.Found? ==> r.block in m.chain && r.block.hash == h
    ensures r.NotInMainChain? <==> forall i :: 0 <= i < |m.chain| ==> m.chain[i].hash != h
    ensures !r.NotInMainChain? ==> (r.BlockNotFound? <==> m.store == Lacks) && (r.Failed? <==> m.store == Fails)
  {
    var i := IndexOf(m.chain, h);
    if i.None? then NotInMainChain
    else
      match m.store
      case Works => Found(m.chain[i.value])
      case Lacks => BlockNotFound
      case Fails => Failed
  }

  // ---------------------------------------------------------------- the fold over whole blocks

  function AfterBlocks(unspent: set<OutPoint>, addrs: set<Addr>, blocks: seq<Block>): set<OutPoint> {
    if blocks == [] then unspent
    else AfterTransactions(AfterBlocks(unspent, addrs, blocks[..|blocks| - 1]), addrs, blocks[|blocks| - 1].txs)
  }

  lemma AfterOneMore(unspent: set<OutPoint>, addrs: set<Addr>, blocks: seq<Block>, b: Block)
    ensures AfterBlocks(unspent, addrs, blocks + [b]) ==
            AfterTransactions(AfterBlocks(unspent, addrs, blocks), addrs, b.txs)
  {
    assert (blocks + [b])[..|blocks|] == blocks;
  }

  function Last(blocks: seq<Block>): Option<Block> {
    if blocks == [] then None else Some(blocks[|blocks| - 1])
  }

  /** The blocks scanned so far: one linked run from lo, all of them known. */
  ghost predicate OneRun(env: Env, scanned: seq<Block>, lo: int) {
    Linked(scanned, lo) && forall i :: 0 <= i < |scanned| ==> Known(env, scanned[i])
  }

  lemma Extends(env: Env, scanned: seq<Block>, lo: int, b: Block)
    requires OneRun(env, scanned, lo) && Known(env, b) && b.height == lo + |scanned|
    requires Last(scanned).Some? ==> b.prev == Last(scanned).value.hash
    ensures OneRun(env, scanned + [b], lo) && Last(scanned + [b]) == Some(b)
  {
  }

  /** A linked run that ends in the tip of a chain is the rest of that chain, block for block. */
  lemma {:induction false} RunUpToTip(env: Env, scanned: seq<Block>, lo: int, t: nat, k: nat)
    requires Sound(env) && OneRun(env, scanned, lo) && t < |env| && k < |scanned|
    requires scanned[|scanned| - 1].hash == env[t].chain[|env[t].chain| - 1].hash
    ensures lo + |scanned| == |env[t].chain| && 0 <= lo + k && scanned[k] == env[t].chain[lo + k]
    decreases |scanned| - k
  {
    var chain := env[t].chain;
    assert Rooted(env, t);
    if k == |scanned| - 1 {
      SameHash(env, scanned[k], chain[|chain| - 1]);
    } else {
      RunUpToTip(env, scanned, lo, t, k + 1);
      assert scanned[k].height == lo + k;
      assert chain[lo + k + 1].prev == chain[lo + k].hash;
      SameHash(env, scanned[k], chain[lo + k]);
    }
  }

  // ---------------------------------------------------------------- what the client is told

  /** The client's side of a rescan: the outpoints, what is queued for it, and how much more it waits for. */
  datatype State = State(unspent: set<OutPoint>, log: seq<Note>, patience: nat)

  ghost function Now(wsc: WsClient, keys: Keys): State
    reads wsc, keys
  {
    State(keys.unspent, wsc.log, wsc.patience)
  }

  /** The notes of one block, and its progress if the ticker ticked. */
  function BlockReport(unspent: set<OutPoint>, addrs: set<Addr>, b: Block, tick: bool): seq<Note> {
    Notes(unspent, addrs, b.txs) + if tick then [Progress(b.hash, b.height)] else []
  }

  /** What the blocks lead to, each looked up at its moment. */
  ghost function Report(unspent: set<OutPoint>, addrs: set<Addr>, env: Env, blocks: seq<Block>, at: seq<nat>): seq<Note>
    requires |at| == |blocks|
  {
    if blocks == [] then []
    else
      var n := |blocks| - 1;
      Report(unspent, addrs, env, blocks[..n], at[..n])
      + BlockReport(AfterBlocks(unspent, addrs, blocks[..n]), addrs, blocks[n], at[n] < |env| && env[at[n]].tick)
  }

  lemma ReportMore(unspent: set<OutPoint>, addrs: set<Addr>, env: Env, blocks: seq<Block>, at: seq<nat>, b: Block,
                   t: nat)
    requires |at| == |blocks| && t < |env|
    ensures Report(unspent, addrs, env, blocks + [b], at + [t]) ==
            Report(unspent, addrs, env, blocks, at)
            + BlockReport(AfterBlocks(unspent, addrs, blocks), addrs, b, env[t].tick)
  {
    assert (blocks + [b])[..|blocks|] == blocks && (at + [t])[..|at|] == at;
  }

  /** The client hears as much of a report as it waits for. */
  ghost predicate Hears(before: State, report: seq<Note>, after: State) {
    if before.patience >= |report|
    then after.log == before.log + report && after.patience == before.patience - |report|
    else after.log == before.log + report[..before.patience] && after.patience == 0
  }

  lemma HearsNothing(before: State)
    ensures Hears(before, [], before)
  {
  }

  /** Two reports in a row. */
  lemma HearsMore(before: State, report: seq<Note>, between: State, more: seq<Note>, after: State)
    requires Hears(before, report, between) && Hears(between, more, after)
    ensures Hears(before, report + more, after)
  {
    if before.patience < |report| {
      assert (report + more)[..before.patience] == report[..before.patience];
    } else if before.patience < |report + more| {
      assert (report + more)[..before.patience] == report + more[..before.patience - |report|];
      assert before.log + (report + more[..before.patience - |report|]) ==
             before.log + report + more[..before.patience - |report|];
    } else {
      assert before.log + (report + more) == before.log + report + more;
    }
  }

  /** Once the client is gone nothing is heard, whatever the report. */
  lemma HearsNoMore(between: State, more: seq<Note>, other: seq<Note>, after: State)
    requires between.patience == 0 && Hears(between, more, after)
    ensures Hears(between, other, after)
  {
  }

  // ---------------------------------------------------------------- a chain that only grows

  /** The chain only grows, the store works, and the client stays. */
  ghost predicate Smooth(env: Env) {
    forall t :: 0 <= t < |env| ==> Calm(env, t)
  }

  ghost predicate Calm(env: Env, t: nat)
    requires t < |env|
  {
    env[t].store == Works && !env[t].quit && (t > 0 ==> env[t - 1].chain <= env[t].chain)
  }

  lemma {:induction false} OnlyGrows(env: Env, s: nat, t: nat)
    requires Smooth(env) && s <= t < |env|
    ensures env[s].chain <= env[t].chain
    decreases t
  {
    if s < t {
      assert Calm(env, t);
      OnlyGrows(env, s, t - 1);
    }
  }

  /** Then there is one block at a height. */
  lemma OneAtHeight(env: Env, b: Block, t: nat)
    requires Sound(env) && Smooth(env) && Known(env, b) && t < |env| && b.height < |env[t].chain|
    ensures env[t].chain[b.height] == b
  {
    var s, i :| 0 <= s < |env| && 0 <= i < |env[s].chain| && env[s].chain[i] == b;
    assert Rooted(env, s);
    if s <= t {
      OnlyGrows(env, s, t);
    } else {
      OnlyGrows(env, t, s);
    }
  }

  /** The blocks from a height on that there will ever be. */
  ghost function BlocksFrom(env: Env, start: int): nat {
    if env != [] && |env[|env| - 1].chain| > start then |env[|env| - 1].chain| - start else 0
  }
}
