/**
 * The chunked rescan (scanBlockChunks and recoverFromReorg in btcd/rpcwebsocket.go) while the main
 * chain changes under it.  A run that wants more moments than there are is still going.  All statements
 * hold of every such finite run.
 */
module RescanRun {
  import opened Options
  import opened Subscriptions
  import opened Rescan
  import opened RescanChains

  const MAX_INV_PER_MSG := 50000
  const MAX_INT32 := 0x7fff_ffff

  datatype Outcome =
    | Done(last: Option<Block>)
    | DatabaseError
    | Reorged
    | ClientQuit
    | Unfinished

  /** The list of hashes in hand is that of known blocks, linked, at heights from lo on. */
  ghost predicate Listed(env: Env, list: seq<Hash>, source: seq<Block>, lo: int) {
    && |source| == |list|
    && Linked(source, lo)
    && (forall i :: 0 <= i < |list| ==> list[i] == source[i].hash && Known(env, source[i]))
  }

  lemma ListedRange(env: Env, t: nat, lo: int, hi: int) returns (source: seq<Block>)
    requires Sound(env) && t < |env| && HeightRange(env[t].chain, lo, hi).Some?
    ensures Listed(env, HeightRange(env[t].chain, lo, hi).value, source, lo)
  {
    var list := HeightRange(env[t].chain, lo, hi).value;
    if list == [] {
      source := [];
    } else {
      source := env[t].chain[lo..lo + |list|];
      assert Rooted(env, t);
      forall i | 0 <= i < |source|
        ensures Known(env, source[i])
      {
        assert env[t].chain[lo + i] == source[i];
      }
    }
  }

  /** Some query found no block at this height. */
  ghost predicate Ended(env: Env, height: int) {
    exists t :: 0 <= t < |env| && |env[t].chain| <= height
  }

  // ---------------------------------------------------------------- recovery

  datatype Recovery = Again(list: seq<Hash>) | Stop(outcome: Outcome)

  /** The first block of a list fetched at moment t cannot be looked up at the next. */
  ghost predicate RecoveryFails(env: Env, t: nat, height: int) {
    && t + 1 < |env| && 0 <= height < |env[t].chain|
    && !BlockByHash(env[t + 1], env[t].chain[height].hash).Found?
  }

  /** A block of the main chain at this height does not follow the last scanned one. */
  ghost predicate OtherFork(env: Env, height: int, last: Option<Block>) {
    last.Some? && exists b :: Known(env, b) && b.height == height && b.prev != last.value.hash
  }

  /** The blocks of the new list follow the last scanned one; an empty list means that there are none. */
  ghost predicate Follows(env: Env, list: seq<Hash>, source: seq<Block>, minBlock: int, maxBlock: int,
                          last: Option<Block>) {
    && Listed(env, list, source, minBlock) && |list| <= maxBlock - minBlock
    && (list != [] && last.Some? ==> source[0].prev == last.value.hash)
    && (list == [] ==> minBlock >= maxBlock || Ended(env, minBlock))
  }

  /** Why there is no new list. */
  ghost predicate NoList(env: Env, t0: nat, minBlock: int, maxBlock: int, last: Option<Block>, outcome: Outcome) {
    match outcome
    case Unfinished => |env| <= t0 + 1
    case DatabaseError => minBlock < 0 || maxBlock < minBlock || RecoveryFails(env, t0, minBlock)
    case Reorged => OtherFork(env, minBlock, last)
    case _ => false
  }

  /** A fresh list after a block went missing, on the same fork as the last scanned block; or why there is none. */
  method RecoverFromReorg(env: Env, t0: nat, minBlock: int, maxBlock: int, last: Option<Block>)
    returns (r: Recovery, t: nat, ghost source: seq<Block>)
    requires Sound(env) && t0 <= |env|
    ensures t0 <= t <= |env|
    ensures r.Again? ==> t0 < |env| && HeightRange(env[t0].chain, minBlock, maxBlock) == Some(r.list)
    ensures r.Again? ==> Follows(env, r.list, source, minBlock, maxBlock, last)
    ensures r.Stop? ==> NoList(env, t0, minBlock, maxBlock, last, r.outcome)
  {
    t, source := t0, [];
    if t == |env| {
      return Stop(Unfinished), t, source;
    }
    var range := HeightRange(env[t].chain, minBlock, maxBlock);
    t := t + 1;
    if range.None? {
      return Stop(DatabaseError), t, source;
    }
    source := ListedRange(env, t - 1, minBlock, maxBlock);
    if last.None? || range.value == [] {
      return Again(range.value), t, source;
    }
    if t == |env| {
      return Stop(Unfinished), t, source;
    }
    var found := BlockByHash(env[t], range.value[0]);
    t := t + 1;
    if !found.Found? {
      return Stop(DatabaseError), t, source;
    }
    FoundIsListed(env, t - 1, range.value, source, minBlock, 0, found.block);
    if found.block.prev != last.value.hash {
      return Stop(Reorged), t, source;
    }
    return Again(range.value), t, source;
  }

  lemma FoundIsListed(env: Env, t: nat, list: seq<Hash>, source: seq<Block>, lo: int, i: nat, found: Block)
    requires Sound(env) && t < |env| && Listed(env, list, source, lo) && i < |list|
    requires found in env[t].chain && found.hash == list[i]
    ensures found == source[i] && Known(env, found) && found.height == lo + i
  {
    var k :| 0 <= k < |env[t].chain| && env[t].chain[k] == found;
    SameHash(env, found, source[i]);
  }

  // ---------------------------------------------------------------- one block

  /** One block of the list, found at moment m: the checks, then the scan. */
  method ScanBlock(wsc: WsClient, keys: Keys, m: Moment, blk: Block, first: bool, last: Option<Block>)
    returns (stop: Option<Outcome>, scanned: bool, ghost cut: bool)
    modifies wsc, keys`unspent
    ensures stop.Some? ==> stop.value in {Reorged, ClientQuit}
    ensures stop == Some(Reorged) <==> first && last.Some? && blk.prev != last.value.hash
    ensures scanned <==> stop != Some(Reorged) && !m.quit
    ensures scanned ==> Hears(old(Now(wsc, keys)), BlockReport(old(keys.unspent), keys.addrs, blk, m.tick),
                              Now(wsc, keys))
    ensures scanned && stop.Some? ==>
              old(wsc.patience) < |BlockReport(old(keys.unspent), keys.addrs, blk, m.tick)|
    ensures scanned ==> (cut <==> old(wsc.patience) < |Notes(old(keys.unspent), keys.addrs, blk.txs)|)
    ensures scanned && !cut ==> keys.unspent == AfterTransactions(old(keys.unspent), keys.addrs, blk.txs)
    ensures !scanned ==> stop.Some? && Now(wsc, keys) == old(Now(wsc, keys))
  {
    cut := false;
    if first && last.Some? && blk.prev != last.value.hash {
      return Some(Reorged), false, cut;
    }
    if m.quit {
      return Some(ClientQuit), false, cut;
    }
    ghost var before := Now(wsc, keys);
    ghost var notes := Notes(keys.unspent, keys.addrs, blk.txs);
    cut := RescanBlock(wsc, keys, blk.txs);
    if m.tick {
      ghost var between := Now(wsc, keys);
      var ok := wsc.Queue(Progress(blk.hash, blk.height));
      HearsMore(before, notes, between, [Progress(blk.hash, blk.height)], Now(wsc, keys));
      if !ok {
        return Some(ClientQuit), true, cut;
      }
    } else {
      assert notes + [] == notes;
    }
    return None, true, cut;
  }

  /** Why the next block of a list fits the run: checked if first, from the same snapshot otherwise. */
  lemma NextFits(env: Env, list: seq<Hash>, source: seq<Block>, lo: int, start: int, i: nat, scanned: seq<Block>,
                 blk: Block)
    requires Sound(env) && Listed(env, list, source, lo) && i < |list|
    requires OneRun(env, scanned, start) && lo + i == start + |scanned|
    requires i > 0 ==> Last(scanned) == Some(source[i - 1])
    requires Known(env, blk) && blk.hash == list[i]
    requires i == 0 && Last(scanned).Some? ==> blk.prev == Last(scanned).value.hash
    ensures blk == source[i]
    ensures OneRun(env, scanned + [blk], start) && Last(scanned + [blk]) == Some(blk)
  {
    SameHash(env, blk, source[i]);
    Extends(env, scanned, start, blk);
  }

  // ---------------------------------------------------------------- what has happened so far

  /** Block `hash` of a list was looked up at a moment; `recovered` says that a new list was then fetched. */
  datatype Look = Look(at: nat, hash: Hash, recovered: bool)

  /** The locals of the scan: the next moment, where the list begins, the last block, and the place in the list. */
  datatype Scan = Scan(t: nat, minBlock: int, last: Option<Block>, list: seq<Hash>, i: nat)

  /**
   * What has happened: the blocks scanned and when, whether a scan was cut short, the lookups, and the
   * blocks of the list.
   */
  datatype Trace = Trace(scanned: seq<Block>, at: seq<nat>, cut: bool, looks: seq<Look>, source: seq<Block>)

  /** What a rescan is about: the moments, the bounds, the client's state before, and the addresses. */
  datatype Job = Job(env: Env, maxBlock: int, start: int, before: State, addrs: set<Addr>)

  /** The block was on the main chain, the store had it, and the client was there. */
  ghost predicate SeenAt(env: Env, b: Block, t: nat) {
    t < |env| && b in env[t].chain && env[t].store == Works && !env[t].quit
  }

  /** Every scanned block was there at its moment, one after the other. */
  ghost predicate Witnessed(env: Env, g: Trace) {
    && |g.at| == |g.scanned|
    && (forall i :: 0 <= i < |g.at| ==> SeenAt(env, g.scanned[i], g.at[i]))
    && (forall i, k :: 0 <= i < k < |g.at| ==> g.at[i] < g.at[k])
  }

  ghost predicate Before(at: seq<nat>, t: nat) {
    forall i :: 0 <= i < |at| ==> at[i] < t
  }

  /** All that the client is owed for what was scanned. */
  ghost function Owed(j: Job, g: Trace): seq<Note>
    requires |g.at| == |g.scanned|
  {
    Report(j.before.unspent, j.addrs, j.env, g.scanned, g.at)
  }

  /** The client heard as much as it waited for; the unspent set is that of the fold unless it left. */
  ghost predicate Heard(j: Job, v: State, g: Trace) {
    && Witnessed(j.env, g)
    && Hears(j.before, Owed(j, g), v)
    && (!g.cut ==> v.unspent == AfterBlocks(j.before.unspent, j.addrs, g.scanned))
    && (g.cut ==> j.before.patience < |Owed(j, g)|)
  }

  lemma HeardMore(j: Job, v: State, g: Trace, blk: Block, t: nat, v': State, gone: bool)
    requires Heard(j, v, g) && SeenAt(j.env, blk, t) && Before(g.at, t)
    requires Hears(v, BlockReport(v.unspent, j.addrs, blk, j.env[t].tick), v')
    requires gone <==> v.patience < |Notes(v.unspent, j.addrs, blk.txs)|
    requires !gone ==> v'.unspent == AfterTransactions(v.unspent, j.addrs, blk.txs)
    ensures var g' := g.(scanned := g.scanned + [blk], at := g.at + [t], cut := g.cut || gone);
            && Heard(j, v', g')
            && (v.patience < |BlockReport(v.unspent, j.addrs, blk, j.env[t].tick)| ==>
                  j.before.patience < |Owed(j, g')|)
  {
    var u := AfterBlocks(j.before.unspent, j.addrs, g.scanned);
    var due := BlockReport(u, j.addrs, blk, j.env[t].tick);
    ReportMore(j.before.unspent, j.addrs, j.env, g.scanned, g.at, blk, t);
    AfterOneMore(j.before.unspent, j.addrs, g.scanned, blk);
    if g.cut {
      HearsNoMore(v, BlockReport(v.unspent, j.addrs, blk, j.env[t].tick), due, v');
    }
    HearsMore(j.before, Owed(j, g), v, due, v');
  }

  ghost predicate Scanned(j: Job, v: State, last: Option<Block>, g: Trace) {
    OneRun(j.env, g.scanned, j.start) && last == Last(g.scanned) && Heard(j, v, g)
  }

  /** Position i of the list comes next. */
  ghost predicate InList(env: Env, list: seq<Hash>, source: seq<Block>, minBlock: int, maxBlock: int, i: nat,
                         start: int, scanned: seq<Block>) {
    && Listed(env, list, source, minBlock)
    && i <= |list| && minBlock + |list| <= maxBlock
    && minBlock + i == start + |scanned|
    && (i > 0 ==> Last(scanned) == Some(source[i - 1]))
  }

  // ---------------------------------------------------------------- which blocks are looked up, and what follows

  ghost predicate OnChain(env: Env, k: Look) {
    k.at < |env| && exists i :: 0 <= i < |env[k.at].chain| && env[k.at].chain[i].hash == k.hash
  }

  /** Recovery is for a block that is still on the main chain and that the store lacks. */
  ghost predicate RecoversRightly(env: Env, k: Look, maxBlock: int) {
    k.at < |env| && (k.recovered <==> maxBlock == MAX_INT32 && OnChain(env, k) && env[k.at].store == Lacks)
  }

  /** All lookups so far, and that one off the main chain is the last and ends the scan. */
  ghost predicate Tracked(env: Env, looks: seq<Look>, maxBlock: int, stop: Option<Outcome>) {
    && (forall i :: 0 <= i < |looks| ==> RecoversRightly(env, looks[i], maxBlock))
    && (forall i :: 0 <= i < |looks| && !OnChain(env, looks[i]) ==> i == |looks| - 1 && stop == Some(DatabaseError))
  }

  /** What a lookup says about the main chain. */
  lemma LookIs(env: Env, t: nat, h: Hash, recovered: bool, maxBlock: int)
    requires t < |env| && (recovered <==> BlockByHash(env[t], h).BlockNotFound? && maxBlock == MAX_INT32)
    ensures RecoversRightly(env, Look(t, h, recovered), maxBlock)
    ensures OnChain(env, Look(t, h, recovered)) <==> !BlockByHash(env[t], h).NotInMainChain?
  {
  }

  lemma TrackMore(env: Env, looks: seq<Look>, k: Look, maxBlock: int, stop: Option<Outcome>)
    requires Tracked(env, looks, maxBlock, None) && RecoversRightly(env, k, maxBlock)
    requires OnChain(env, k) || stop == Some(DatabaseError)
    ensures Tracked(env, looks + [k], maxBlock, stop)
    ensures OnChain(env, k) ==> forall o :: Tracked(env, looks + [k], maxBlock, o)
  {
  }

  /** While no block was off the main chain, the lookups fit any outcome. */
  lemma NoneIsEnough(env: Env, looks: seq<Look>, maxBlock: int, outcome: Outcome)
    requires Tracked(env, looks, maxBlock, None)
    ensures Tracked(env, looks, maxBlock, Some(outcome))
  {
  }

  /** The last lookup led to recovery. */
  ghost predicate JustRecovered(looks: seq<Look>) {
    looks != [] && looks[|looks| - 1].recovered
  }

  // ---------------------------------------------------------------- why a rescan stops

  /** At its last lookup the client had left, or it does not wait for all that it is owed. */
  ghost predicate ClientLeft(j: Job, g: Trace) {
    || (g.looks != [] && var k := g.looks[|g.looks| - 1]; k.at < |j.env| && j.env[k.at].quit)
    || (|g.at| == |g.scanned| && j.before.patience < |Owed(j, g)|)
  }

  /** The last lookup failed: off the main chain, a failing store, or a recovery that could not go on. */
  ghost predicate LookupError(j: Job, g: Trace) {
    && g.looks != []
    && var k := g.looks[|g.looks| - 1];
       k.at < |j.env|
       && (!OnChain(j.env, k) || j.env[k.at].store == Fails
           || (k.recovered && RecoveryFails(j.env, k.at + 1, j.start + |g.scanned|)))
  }

  /** The main chain left the last scanned block, or the store lacks a block up to a fixed end. */
  ghost predicate ChainLeft(j: Job, g: Trace) {
    || OtherFork(j.env, j.start + |g.scanned|, Last(g.scanned))
    || (j.maxBlock != MAX_INT32 && g.looks != []
        && var k := g.looks[|g.looks| - 1]; k.at < |j.env| && j.env[k.at].store == Lacks)
  }

  /** Nothing ends a rescan without its cause. */
  ghost predicate Excused(j: Job, outcome: Outcome, g: Trace) {
    match outcome
    case ClientQuit => ClientLeft(j, g)
    case DatabaseError => j.start < 0 || LookupError(j, g)
    case Reorged => ChainLeft(j, g)
    case Done(_) => true
    case Unfinished => true
  }

  /** Enough moments for a chain that only grows: four for each block that there will be, and two at the end. */
  ghost predicate Long(j: Job) {
    |j.env| >= 4 * BlocksFrom(j.env, j.start) + 2
  }

  /** While the chain only grows and the client waits for its notes, a rescan gets done. */
  ghost predicate Completes(j: Job, outcome: Outcome, g: Trace) {
    Smooth(j.env) && 0 <= j.start && Long(j) && |g.at| == |g.scanned| && j.before.patience >= |Owed(j, g)| ==>
      outcome.Done?
  }

  /** How far a scan of a growing chain has come within a list: one moment per block, and three to begin with. */
  ghost predicate PaceIn(j: Job, s: Scan, g: Trace) {
    Smooth(j.env) && 0 <= j.start && 0 < s.t <= |j.env| ==>
      && s.minBlock + |s.list| <= |j.env[s.t - 1].chain|
      && s.t + 3 * s.i <= 4 * |g.scanned| + 3
  }

  /** And between two lists. */
  ghost predicate PaceBetween(j: Job, t: nat, g: Trace) {
    Smooth(j.env) && 0 <= j.start && t <= |j.env| ==>
      && (g.scanned != [] ==> 0 < t && j.start + |g.scanned| <= |j.env[t - 1].chain|)
      && t <= 4 * |g.scanned| + if 0 < t && j.start + |g.scanned| < |j.env[t - 1].chain| then 2 else 0
  }

  // ---------------------------------------------------------------- one list of hashes

  ghost predicate Running(j: Job, v: State, s: Scan, g: Trace) {
    Searching(j, v, s, g) && (s.i > 0 ==> !JustRecovered(g.looks))
  }

  ghost predicate Searching(j: Job, v: State, s: Scan, g: Trace) {
    && 0 < s.t <= |j.env| && s.list != []
    && InList(j.env, s.list, g.source, s.minBlock, j.maxBlock, s.i, j.start, g.scanned)
    && Scanned(j, v, s.last, g)
    && Tracked(j.env, g.looks, j.maxBlock, None)
  }

  ghost predicate Stopped(j: Job, v: State, outcome: Outcome, last: Option<Block>, g: Trace) {
    && Scanned(j, v, last, g)
    && j.start + |g.scanned| <= j.maxBlock
    && Tracked(j.env, g.looks, j.maxBlock, Some(outcome))
    && (outcome.Done? ==> outcome.last == last && Ended(j.env, j.start + |g.scanned|) && JustRecovered(g.looks))
    && Excused(j, outcome, g) && Completes(j, outcome, g)
  }

  /** While the chain only grows, the next block of the list is found and follows the last one. */
  lemma SmoothFinds(j: Job, v: State, s: Scan, g: Trace)
    requires Sound(j.env) && Searching(j, v, s, g) && PaceIn(j, s, g) && s.t < |j.env| && s.i < |s.list|
    requires Smooth(j.env) && 0 <= j.start
    ensures var found := BlockByHash(j.env[s.t], s.list[s.i]);
            found.Found? && (s.i == 0 && s.last.Some? ==> found.block.prev == s.last.value.hash)
  {
    var b, chain := g.source[s.i], j.env[s.t].chain;
    assert Calm(j.env, s.t);
    OneAtHeight(j.env, b, s.t);
    var found := BlockByHash(j.env[s.t], s.list[s.i]);
    assert chain[b.height].hash == s.list[s.i];
    FoundIsListed(j.env, s.t, s.list, g.source, s.minBlock, s.i, found.block);
    if s.i == 0 && s.last.Some? {
      OneAtHeight(j.env, s.last.value, s.t);
      assert Rooted(j.env, s.t);
    }
  }

  /** The moments run out within a list only if there are too few. */
  lemma ListRunsShort(j: Job, v: State, s: Scan, g: Trace)
    requires Searching(j, v, s, g) && PaceIn(j, s, g) && s.t == |j.env| && s.i < |s.list|
    ensures Completes(j, Unfinished, g)
  {
  }

  /** The next block of the list was found at moment s.t: it is checked and scanned. */
  method ScanFound(wsc: WsClient, keys: Keys, s: Scan, m: Moment, blk: Block, ghost j: Job, ghost g: Trace)
    returns (stop: Option<Outcome>, s': Scan, ghost g': Trace)
    requires Sound(j.env) && Known(j.env, blk) && s.i < |s.list| && blk.hash == s.list[s.i] && j.addrs == keys.addrs
    requires blk.height == s.minBlock + s.i
    requires Searching(j, Now(wsc, keys), s, g) && Before(g.at, s.t) && PaceIn(j, s, g)
    requires s.t < |j.env| && m == j.env[s.t] && blk in m.chain && m.store == Works
    requires LookedUp(g.looks, s.t, false)
    requires Smooth(j.env) && 0 <= j.start && s.i == 0 && s.last.Some? ==> blk.prev == s.last.value.hash
    modifies wsc, keys`unspent
    ensures g'.looks == g.looks && s'.t == s.t + 1
    ensures stop.None? ==> Running(j, Now(wsc, keys), s', g') && Before(g'.at, s'.t) && PaceIn(j, s', g')
    ensures stop.Some? ==> Stopped(j, Now(wsc, keys), stop.value, s'.last, g')
  {
    s', g' := s.(t := s.t + 1), g;
    ghost var v := Now(wsc, keys);
    var done; ghost var gone;
    stop, done, gone := ScanBlock(wsc, keys, m, blk, s.i == 0, s.last);
    if done {
      s' := Scan(s.t + 1, s.minBlock, Some(blk), s.list, s.i + 1);
      g' := g.(scanned := g.scanned + [blk], at := g.at + [s.t], cut := g.cut || gone);
      FoundScanned(j, v, s, g, blk, Now(wsc, keys), gone, s', g');
    }
    if stop.Some? {
      FoundButStopped(j, Now(wsc, keys), s, s', g', blk, stop.value, done);
    }
  }

  /** The state of affairs once the block has been scanned. */
  lemma FoundScanned(j: Job, v: State, s: Scan, g: Trace, blk: Block, v': State, gone: bool, s': Scan, g': Trace)
    requires Sound(j.env) && SeenAt(j.env, blk, s.t) && s.i < |s.list| && blk.hash == s.list[s.i]
    requires Searching(j, v, s, g) && Before(g.at, s.t) && PaceIn(j, s, g) && LookedUp(g.looks, s.t, false)
    requires Hears(v, BlockReport(v.unspent, j.addrs, blk, j.env[s.t].tick), v')
    requires gone <==> v.patience < |Notes(v.unspent, j.addrs, blk.txs)|
    requires !gone ==> v'.unspent == AfterTransactions(v.unspent, j.addrs, blk.txs)
    requires s.i == 0 && s.last.Some? ==> blk.prev == s.last.value.hash
    requires s' == Scan(s.t + 1, s.minBlock, Some(blk), s.list, s.i + 1)
    requires g' == g.(scanned := g.scanned + [blk], at := g.at + [s.t], cut := g.cut || gone)
    ensures Running(j, v', s', g') && Before(g'.at, s'.t) && PaceIn(j, s', g')
    ensures v.patience < |BlockReport(v.unspent, j.addrs, blk, j.env[s.t].tick)| ==>
              j.before.patience < |Owed(j, g')|
  {
    HeardMore(j, v, g, blk, s.t, v', gone);
    RunLonger(j, s, g, blk);
    BeforeNext(g.at, s.t);
    PaceKept(j, s, g, s', g');
    RunsOn(j, v', s', g');
  }

  lemma RunsOn(j: Job, v: State, s: Scan, g: Trace)
    requires 0 < s.t <= |j.env| && s.list != [] && OneRun(j.env, g.scanned, j.start) && s.last == Last(g.scanned)
    requires InList(j.env, s.list, g.source, s.minBlock, j.maxBlock, s.i, j.start, g.scanned)
    requires Heard(j, v, g) && Tracked(j.env, g.looks, j.maxBlock, None) && !JustRecovered(g.looks)
    ensures Running(j, v, s, g)
  {
  }

  lemma RunLonger(j: Job, s: Scan, g: Trace, blk: Block)
    requires Sound(j.env) && SeenAt(j.env, blk, s.t) && s.i < |s.list| && blk.hash == s.list[s.i]
    requires OneRun(j.env, g.scanned, j.start) && s.last == Last(g.scanned)
    requires InList(j.env, s.list, g.source, s.minBlock, j.maxBlock, s.i, j.start, g.scanned)
    requires s.i == 0 && s.last.Some? ==> blk.prev == s.last.value.hash
    ensures OneRun(j.env, g.scanned + [blk], j.start) && Last(g.scanned + [blk]) == Some(blk)
    ensures InList(j.env, s.list, g.source, s.minBlock, j.maxBlock, s.i + 1, j.start, g.scanned + [blk])
  {
    FoundIsListed(j.env, s.t, s.list, g.source, s.minBlock, s.i, blk);
    NextFits(j.env, s.list, g.source, s.minBlock, j.start, s.i, g.scanned, blk);
  }

  lemma BeforeNext(at: seq<nat>, t: nat)
    requires Before(at, t)
    ensures Before(at + [t], t + 1)
  {
  }

  /** The last lookup was at that moment, and led to recovery or not. */
  ghost predicate LookedUp(looks: seq<Look>, t: nat, recovered: bool) {
    looks != [] && looks[|looks| - 1].at == t && looks[|looks| - 1].recovered == recovered
  }

  lemma PaceKept(j: Job, s: Scan, g: Trace, s': Scan, g': Trace)
    requires 0 < s.t < |j.env| && PaceIn(j, s, g) && s'.t == s.t + 1 && s'.i == s.i + 1
    requires s'.minBlock == s.minBlock && s'.list == s.list && |g'.scanned| == |g.scanned| + 1
    ensures PaceIn(j, s', g')
  {
    if Smooth(j.env) {
      assert Calm(j.env, s.t);
    }
  }

  /** Why a block that was found ended the scan: another fork, or the client. */
  lemma FoundButStopped(j: Job, v: State, s: Scan, s': Scan, g: Trace, blk: Block, outcome: Outcome, done: bool)
    requires Searching(j, v, s', g) && s.t < |j.env| && LookedUp(g.looks, s.t, false)
    requires outcome in {Reorged, ClientQuit} && (done ==> outcome == ClientQuit && j.before.patience < |Owed(j, g)|)
    requires !done ==> (outcome == Reorged || j.env[s.t].quit) && s'.last == s.last && s'.i == s.i < |s'.list|
    requires outcome == Reorged ==> s.i == 0 && s.last.Some? && blk.prev != s.last.value.hash
    requires Known(j.env, blk) && blk.height == s.minBlock + s.i && s'.minBlock == s.minBlock
    requires Smooth(j.env) && 0 <= j.start && s.i == 0 && s.last.Some? ==> blk.prev == s.last.value.hash
    ensures Stopped(j, v, outcome, s'.last, g)
  {
    NoneIsEnough(j.env, g.looks, j.maxBlock, outcome);
    if outcome == Reorged {
      assert OtherFork(j.env, j.start + |g.scanned|, s.last);
    } else if Smooth(j.env) {
      assert Calm(j.env, s.t);
    }
  }

  lemma StillListed(env: Env, list: seq<Hash>, source: seq<Block>, lo: int, i: nat)
    requires Listed(env, list, source, lo) && i < |list|
    ensures lo + i >= 0
  {
    assert source[i].height == lo + i;
  }

  /** The store lacks the next block of the list: a new list is fetched from there on. */
  method Recover(env: Env, s: Scan, maxBlock: int, ghost j: Job, ghost g: Trace, ghost v: State)
    returns (stop: Option<Outcome>, s': Scan, ghost g': Trace)
    requires Sound(env) && env == j.env && maxBlock == j.maxBlock && s.i < |s.list| && s.t < |env|
    requires Searching(j, v, s, g) && LookedUp(g.looks, s.t, true) && !Smooth(env) && Before(g.at, s.t)
    ensures g'.looks == g.looks && s'.t > s.t
    ensures stop.None? ==> Running(j, v, s', g') && Before(g'.at, s'.t) && PaceIn(j, s', g')
    ensures stop.Some? ==> Stopped(j, v, stop.value, s'.last, g')
  {
    s', g', stop := s.(t := s.t + 1), g, None;
    var r, t; ghost var source;
    r, t, source := RecoverFromReorg(env, s.t + 1, s.minBlock + s.i, maxBlock, s.last);
    if r.Stop? {
      RecoveryStopped(j, v, s, g, r.outcome);
      stop := Some(r.outcome);
    } else if r.list == [] {
      RecoveryFoundNone(j, v, s, g, source);
      stop := Some(Done(s.last));
    } else {
      RecoveryGoesOn(j, v, s, g, t, r.list, source);
      s' := Scan(t, s.minBlock + s.i, s.last, r.list, 0);
      g' := g.(source := source);
    }
  }

  lemma RecoveryStopped(j: Job, v: State, s: Scan, g: Trace, outcome: Outcome)
    requires Searching(j, v, s, g) && s.t < |j.env| && s.i < |s.list| && LookedUp(g.looks, s.t, true)
    requires !Smooth(j.env) && NoList(j.env, s.t + 1, s.minBlock + s.i, j.maxBlock, s.last, outcome)
    ensures Stopped(j, v, outcome, s.last, g)
  {
    StillListed(j.env, s.list, g.source, s.minBlock, s.i);
    NoneIsEnough(j.env, g.looks, j.maxBlock, outcome);
  }

  lemma RecoveryFoundNone(j: Job, v: State, s: Scan, g: Trace, source: seq<Block>)
    requires Searching(j, v, s, g) && s.t < |j.env| && s.i < |s.list| && LookedUp(g.looks, s.t, true)
    requires Follows(j.env, [], source, s.minBlock + s.i, j.maxBlock, s.last)
    ensures Stopped(j, v, Done(s.last), s.last, g)
  {
    NoneIsEnough(j.env, g.looks, j.maxBlock, Done(s.last));
  }

  lemma RecoveryGoesOn(j: Job, v: State, s: Scan, g: Trace, t: nat, list: seq<Hash>, source: seq<Block>)
    requires Searching(j, v, s, g) && s.t < t <= |j.env| && !Smooth(j.env) && Before(g.at, s.t)
    requires Follows(j.env, list, source, s.minBlock + s.i, j.maxBlock, s.last) && list != []
    ensures var s', g' := Scan(t, s.minBlock + s.i, s.last, list, 0), g.(source := source);
            Running(j, v, s', g') && Before(g'.at, s'.t) && PaceIn(j, s', g')
  {
  }

  /** A lookup of the next block is on record. */
  lemma Looked(j: Job, v: State, s: Scan, g: Trace, recovered: bool)
    requires Running(j, v, s, g) && s.t < |j.env| && s.i < |s.list|
    requires recovered <==> BlockByHash(j.env[s.t], s.list[s.i]).BlockNotFound? && j.maxBlock == MAX_INT32
    ensures var looks := g.looks + [Look(s.t, s.list[s.i], recovered)];
            var found := BlockByHash(j.env[s.t], s.list[s.i]);
            && LookedUp(looks, s.t, recovered)
            && (found.NotInMainChain? ==> Tracked(j.env, looks, j.maxBlock, Some(DatabaseError)))
            && (!found.NotInMainChain? ==> Searching(j, v, s, g.(looks := looks)))
  {
    LookIs(j.env, s.t, s.list[s.i], recovered, j.maxBlock);
    var k := Look(s.t, s.list[s.i], recovered);
    TrackMore(j.env, g.looks, k, j.maxBlock, if OnChain(j.env, k) then None else Some(DatabaseError));
  }

  /** One lookup of the loop over the list and what follows it. */
  method ScanNext(wsc: WsClient, keys: Keys, env: Env, s: Scan, maxBlock: int, ghost j: Job, ghost g: Trace)
    returns (stop: Option<Outcome>, s': Scan, ghost g': Trace)
    requires Sound(env) && env == j.env && maxBlock == j.maxBlock && keys.addrs == j.addrs
    requires Running(j, Now(wsc, keys), s, g) && Before(g.at, s.t) && PaceIn(j, s, g)
    requires s.t < |env| && s.i < |s.list|
    modifies wsc, keys`unspent
    ensures |g'.looks| == |g.looks| + 1 && g.looks <= g'.looks
    ensures g'.looks[|g.looks|].at == s.t && g'.looks[|g.looks|].hash == s.list[s.i]
    ensures s'.t > s.t
    ensures stop.None? ==> Running(j, Now(wsc, keys), s', g') && Before(g'.at, s'.t) && PaceIn(j, s', g')
    ensures stop.Some? ==> Stopped(j, Now(wsc, keys), stop.value, s'.last, g')
  {
    var found := BlockByHash(env[s.t], s.list[s.i]);
    var lacks := found.BlockNotFound? && maxBlock == MAX_INT32;
    ghost var v := Now(wsc, keys);
    Looked(j, v, s, g, lacks);
    if Smooth(env) && 0 <= j.start {
      SmoothFinds(j, v, s, g);
    }
    s', g' := s.(t := s.t + 1), g.(looks := g.looks + [Look(s.t, s.list[s.i], lacks)]);
    if lacks {
      assert !Calm(env, s.t);
      stop, s', g' := Recover(env, s, maxBlock, j, g', v);
    } else if found.Found? {
      FoundIsListed(env, s.t, s.list, g.source, s.minBlock, s.i, found.block);
      stop, s', g' := ScanFound(wsc, keys, s, env[s.t], found.block, j, g');
    } else {
      stop := Some(if found.BlockNotFound? then Reorged else DatabaseError);
      LookupFailed(j, v, s, g, g', stop.value);
    }
  }

  /** A lookup that neither found the block nor led to recovery ends the scan. */
  lemma LookupFailed(j: Job, v: State, s: Scan, g: Trace, g': Trace, outcome: Outcome)
    requires Running(j, v, s, g) && s.t < |j.env| && s.i < |s.list|
    requires g' == g.(looks := g.looks + [Look(s.t, s.list[s.i], false)])
    requires var found := BlockByHash(j.env[s.t], s.list[s.i]);
             && !found.Found? && !(found.BlockNotFound? && j.maxBlock == MAX_INT32)
             && outcome == if found.BlockNotFound? then Reorged else DatabaseError
    requires !(Smooth(j.env) && 0 <= j.start)
    ensures Stopped(j, v, outcome, s.last, g')
  {
    Looked(j, v, s, g, false);
    LookIs(j.env, s.t, s.list[s.i], false, j.maxBlock);
    if !BlockByHash(j.env[s.t], s.list[s.i]).NotInMainChain? {
      NoneIsEnough(j.env, g'.looks, j.maxBlock, outcome);
    }
  }

  /**
   * One list of hashes, with the jumps back to its start when the store lacks a block.  A block that is
   * no longer on the main chain ends the scan with a database error.
   */
  method ScanList(wsc: WsClient, keys: Keys, env: Env, s0: Scan, maxBlock: int, ghost j: Job, ghost g0: Trace)
    returns (stop: Option<Outcome>, s: Scan, ghost g: Trace)
    requires Sound(env) && env == j.env && maxBlock == j.maxBlock && keys.addrs == j.addrs
    requires Running(j, Now(wsc, keys), s0, g0) && Before(g0.at, s0.t) && PaceIn(j, s0, g0) && s0.i == 0
    modifies wsc, keys`unspent
    ensures s.t >= s0.t
    ensures stop.None? ==> Running(j, Now(wsc, keys), s, g) && Before(g.at, s.t) && PaceIn(j, s, g)
    ensures stop.None? ==> s.i == |s.list|
    ensures stop.Some? ==> Stopped(j, Now(wsc, keys), stop.value, s.last, g)
    ensures g0.looks <= g.looks && (s0.t < |env| && s0.list != [] ==> Begins(g0.looks, g.looks, s0.t, s0.list))
  {
    s, g, stop := s0, g0, None;
    while s.i < |s.list|
      invariant Running(j, Now(wsc, keys), s, g) == true && stop.None?
      invariant Before(g.at, s.t) == true && PaceIn(j, s, g) == true
      invariant s.t >= s0.t && g0.looks <= g.looks
      invariant s.t == s0.t ==> s == s0 && g == g0
      invariant s.t > s0.t ==> Begins(g0.looks, g.looks, s0.t, s0.list)
      decreases |env| - s.t
    {
      if s.t == |env| {
        stop := Some(Unfinished);
        NoneIsEnough(env, g.looks, maxBlock, Unfinished);
        ListRunsShort(j, Now(wsc, keys), s, g);
        return;
      }
      stop, s, g := ScanNext(wsc, keys, env, s, maxBlock, j, g);
      assert Begins(g0.looks, g.looks, s0.t, s0.list);
      if stop.Some? {
        return;
      }
    }
  }

  /** The lookups of a list begin with its first block, at once. */
  ghost predicate Begins(looks0: seq<Look>, looks: seq<Look>, t0: nat, list0: seq<Hash>) {
    |looks| > |looks0| && looks0 <= looks && list0 != []
    && looks[|looks0|].at == t0 && looks[|looks0|].hash == list0[0]
  }

  // ---------------------------------------------------------------- list after list

  /** The blocks of a chain from a height on. */
  function From(chain: seq<Block>, start: int): seq<Block> {
    if 0 <= start <= |chain| then chain[start..] else []
  }

  /**
   * Registering at moment t misses no block of the chain of that moment exactly if some block was
   * scanned, or the chain still ends before the first block that was asked for.
   */
  ghost predicate RegistersAt(env: Env, t: nat, start: int, scanned: seq<Block>) {
    t < |env| && 0 <= start
    && (scanned == From(env[t].chain, start) <==> scanned != [] || |env[t].chain| <= start)
  }

  lemma TipReached(env: Env, t: nat, start: int, scanned: seq<Block>)
    requires Sound(env) && OneRun(env, scanned, start) && 0 <= start && TipMet(env, t, scanned)
    ensures RegistersAt(env, t, start, scanned)
  {
    if scanned != [] {
      forall k | 0 <= k < |scanned|
        ensures start + |scanned| == |env[t].chain| && scanned[k] == env[t].chain[start + k]
      {
        RunUpToTip(env, scanned, start, t, 0);
        RunUpToTip(env, scanned, start, t, k);
      }
      assert scanned[0] == env[t].chain[start + 0];
    }
  }

  /** If there is a block to begin with, it is looked up at once. */
  ghost predicate FirstLook(env: Env, minBlock: int, looks: seq<Look>)
    requires env != []
  {
    |env| > 1 && 0 <= minBlock < |env[0].chain| ==>
      looks != [] && looks[0].at == 1 && looks[0].hash == env[0].chain[minBlock].hash
  }

  /** Between two lists: everything up to minBlock was scanned. */
  ghost predicate Between(j: Job, v: State, t: nat, minBlock: int, last: Option<Block>, g: Trace) {
    && t <= |j.env| && minBlock == j.start + |g.scanned|
    && (g.scanned != [] ==> 0 <= j.start && minBlock <= j.maxBlock)
    && Scanned(j, v, last, g) && Before(g.at, t) && PaceBetween(j, t, g)
    && Tracked(j.env, g.looks, j.maxBlock, None) && !JustRecovered(g.looks)
    && (if t == 0 then g.scanned == [] && g.looks == [] else FirstLook(j.env, j.start, g.looks))
  }

  /** How a rescan may end. */
  ghost predicate Finished(j: Job, v: State, outcome: Outcome, g: Trace) {
    && OneRun(j.env, g.scanned, j.start) && Heard(j, v, g)
    && (g.scanned != [] ==> 0 <= j.start && j.start + |g.scanned| <= j.maxBlock)
    && (outcome.Done? ==>
          && outcome.last == Last(g.scanned)
          && (j.start + |g.scanned| >= j.maxBlock || Ended(j.env, j.start + |g.scanned|)))
    && Tracked(j.env, g.looks, j.maxBlock, Some(outcome))
    && (j.start < j.maxBlock && j.env != [] ==> FirstLook(j.env, j.start, g.looks))
    && Excused(j, outcome, g) && Completes(j, outcome, g)
  }

  lemma MayFinish(j: Job, v: State, t: nat, minBlock: int, last: Option<Block>, g: Trace, outcome: Outcome)
    requires Between(j, v, t, minBlock, last, g) && (t > 0 || j.start >= j.maxBlock || j.env == [])
    requires outcome.Done? ==> outcome.last == last && (minBlock >= j.maxBlock || Ended(j.env, minBlock))
    requires outcome.Done? || outcome.Unfinished? || (outcome.DatabaseError? && j.start < 0)
    requires Completes(j, outcome, g)
    ensures Finished(j, v, outcome, g)
  {
    NoneIsEnough(j.env, g.looks, j.maxBlock, outcome);
  }

  /** The moments run out between two lists only if there are too few. */
  lemma RunsShort(j: Job, t: nat, g: Trace)
    requires PaceBetween(j, t, g) && t == |j.env|
    ensures Completes(j, Unfinished, g)
  {
  }

  lemma EndsOnPace(j: Job, s: Scan, g: Trace)
    requires PaceIn(j, s, g) && 0 < s.t <= |j.env| && s.i == |s.list| > 0
    requires s.minBlock + s.i == j.start + |g.scanned|
    ensures PaceBetween(j, s.t, g)
  {
  }

  /** One chunk: the list of hashes fetched at moment t, which is not empty. */
  method ScanChunk(wsc: WsClient, keys: Keys, env: Env, t: nat, minBlock: int, maxBlock: int, maxLoopBlock: int,
                   last: Option<Block>, ghost j: Job, ghost g: Trace)
    returns (stop: Option<Outcome>, t': nat, minBlock': int, last': Option<Block>, ghost g': Trace)
    requires Sound(env) && env == j.env && maxBlock == j.maxBlock && keys.addrs == j.addrs && t < |env|
    requires Between(j, Now(wsc, keys), t, minBlock, last, g) && maxLoopBlock <= maxBlock
    requires HeightRange(env[t].chain, minBlock, maxLoopBlock).Some?
    requires HeightRange(env[t].chain, minBlock, maxLoopBlock).value != []
    requires !StartsBeyond(env, j.start, maxBlock)
    modifies wsc, keys`unspent
    ensures t' > t
    ensures stop.None? ==> Between(j, Now(wsc, keys), t', minBlock', last', g')
    ensures stop.Some? ==> Result(j, Now(wsc, keys), stop.value, false, g', 0)
  {
    var list := HeightRange(env[t].chain, minBlock, maxLoopBlock).value;
    ghost var source := ListedRange(env, t, minBlock, maxLoopBlock);
    var s0 := Scan(t + 1, minBlock, last, list, 0);
    ghost var g0 := g.(source := source);
    ListBegins(j, Now(wsc, keys), t, minBlock, last, g, list, source);
    var s;
    stop, s, g' := ScanList(wsc, keys, env, s0, maxBlock, j, g0);
    FirstLookKept(env, j.start, t, g.looks, g'.looks, list);
    t', minBlock', last' := s.t, s.minBlock + |s.list|, s.last;
    if stop.None? {
      ListDone(j, Now(wsc, keys), s, g');
    } else {
      ListStopped(j, Now(wsc, keys), stop.value, s.last, g');
    }
  }

  lemma ListBegins(j: Job, v: State, t: nat, minBlock: int, last: Option<Block>, g: Trace, list: seq<Hash>,
                   source: seq<Block>)
    requires Between(j, v, t, minBlock, last, g) && t < |j.env| && Listed(j.env, list, source, minBlock)
    requires list != [] && minBlock + |list| <= j.maxBlock && minBlock + |list| <= |j.env[t].chain|
    ensures var s0, g0 := Scan(t + 1, minBlock, last, list, 0), g.(source := source);
            && Running(j, v, s0, g0) && Before(g0.at, s0.t) && PaceIn(j, s0, g0)
            && 0 <= j.start
  {
    assert source[0].height == minBlock;
  }

  lemma ListDone(j: Job, v: State, s: Scan, g: Trace)
    requires Running(j, v, s, g) && Before(g.at, s.t) && PaceIn(j, s, g) && s.i == |s.list| && 0 <= j.start
    requires FirstLook(j.env, j.start, g.looks)
    ensures Between(j, v, s.t, s.minBlock + |s.list|, s.last, g)
  {
    EndsOnPace(j, s, g);
  }

  lemma ListStopped(j: Job, v: State, outcome: Outcome, last: Option<Block>, g: Trace)
    requires Stopped(j, v, outcome, last, g) && 0 <= j.start && j.env != [] && FirstLook(j.env, j.start, g.looks)
    requires !StartsBeyond(j.env, j.start, j.maxBlock)
    ensures Result(j, v, outcome, false, g, 0)
  {
  }

  lemma FirstLookKept(env: Env, start: int, t: nat, looks: seq<Look>, looks': seq<Look>, list: seq<Hash>)
    requires t < |env| && looks <= looks' && list != []
    requires t > 0 ==> FirstLook(env, start, looks)
    requires t == 0 ==> looks == [] && 0 <= start < |env[0].chain| && list[0] == env[0].chain[start].hash
    requires t + 1 < |env| ==> Begins(looks, looks', t + 1, list)
    ensures FirstLook(env, start, looks')
  {
  }

  /** The chain ends before the first block that is asked for, and the tip is looked at next. */
  ghost predicate StartsBeyond(env: Env, start: int, maxBlock: int) {
    |env| > 1 && |env[0].chain| <= start < maxBlock == MAX_INT32
  }

  /** Nothing was scanned, or the tip was scanned last. */
  predicate AtTip(m: Moment, last: Option<Block>)
    requires m.chain != []
  {
    last.None? || last.value.hash == m.chain[|m.chain| - 1].hash
  }

  /** So it was when the client was registered. */
  ghost predicate TipMet(env: Env, t: nat, scanned: seq<Block>) {
    t < |env| && env[t].chain != [] && AtTip(env[t], Last(scanned))
  }

  /** What is known at the end: how the rescan ended, and when and with what the client was registered. */
  ghost predicate Result(j: Job, v: State, res: Outcome, registered: bool, g: Trace, at: nat) {
    && Finished(j, v, res, g)
    && (registered ==> res.Done? && 0 <= j.start && TipMet(j.env, at, g.scanned))
    && (registered ==> j.start + |g.scanned| < j.maxBlock == MAX_INT32)
    && (res.Done? && j.maxBlock == MAX_INT32 && j.start + |g.scanned| < j.maxBlock ==>
          (!registered <==> JustRecovered(g.looks)))
    && (StartsBeyond(j.env, j.start, j.maxBlock) ==> registered && v == j.before && at == 1 && g.scanned == [])
  }

  /** The loop over the lists; `done` says that the client may be registered, at moment `at`. */
  method ScanLists(wsc: WsClient, keys: Keys, env: Env, minBlock0: int, maxBlock: int, ghost j: Job)
    returns (res: Outcome, done: bool, ghost g: Trace, ghost at: nat)
    requires Sound(env) && j == Job(env, maxBlock, minBlock0, Now(wsc, keys), keys.addrs)
    modifies wsc, keys`unspent
    ensures Result(j, Now(wsc, keys), res, done, g, at)
  {
    done, at := false, 0;
    var t, minBlock := 0, minBlock0;
    var last: Option<Block> := None;
    g := Trace([], [], false, [], []);
    HearsNothing(j.before);
    while minBlock < maxBlock
      invariant Between(j, Now(wsc, keys), t, minBlock, last, g) == true && !done
      invariant StartsBeyond(env, minBlock0, maxBlock) ==> t == 0 && Now(wsc, keys) == j.before
      decreases |env| - t
    {
      if t == |env| {
        res := Unfinished;
        RunsShort(j, t, g);
        MayFinish(j, Now(wsc, keys), t, minBlock, last, g, res);
        return;
      }
      var stop;
      stop, t, minBlock, last, done, g, at := ScanOnce(wsc, keys, env, t, minBlock, maxBlock, last, j, g);
      if stop.Some? {
        res := stop.value;
        return;
      }
    }
    res := Done(last);
    MayFinish(j, Now(wsc, keys), t, minBlock, last, g, res);
  }

  /** One iteration: a list is fetched and scanned, or there is none. */
  method ScanOnce(wsc: WsClient, keys: Keys, env: Env, t: nat, minBlock: int, maxBlock: int, last: Option<Block>,
                  ghost j: Job, ghost g: Trace)
    returns (stop: Option<Outcome>, t': nat, minBlock': int, last': Option<Block>, done: bool, ghost g': Trace,
             ghost at: nat)
    requires Sound(env) && env == j.env && maxBlock == j.maxBlock && keys.addrs == j.addrs
    requires t < |env| && minBlock < maxBlock && Between(j, Now(wsc, keys), t, minBlock, last, g)
    requires StartsBeyond(env, j.start, maxBlock) ==> t == 0 && Now(wsc, keys) == j.before
    modifies wsc, keys`unspent
    ensures t' > t && (stop.None? ==> !done && !StartsBeyond(env, j.start, maxBlock))
    ensures stop.None? ==> Between(j, Now(wsc, keys), t', minBlock', last', g')
    ensures stop.Some? ==> Result(j, Now(wsc, keys), stop.value, done, g', at)
  {
    t', minBlock', last', done, g', at := t, minBlock, last, false, g, 0;
    var maxLoopBlock := if maxBlock - minBlock > MAX_INV_PER_MSG then minBlock + MAX_INV_PER_MSG else maxBlock;
    var range := HeightRange(env[t].chain, minBlock, maxLoopBlock);
    if range.Some? && range.value != [] {
      stop, t', minBlock', last', g' := ScanChunk(wsc, keys, env, t, minBlock, maxBlock, maxLoopBlock, last, j, g);
    } else {
      stop, t', done := NoMoreBlocks(env, t, range.None?, minBlock, maxBlock, last, j, g, Now(wsc, keys));
      at := t' - 1;
    }
  }

  /** No hash was fetched: an error, the end, or the moment to register if the tip was scanned last. */
  method NoMoreBlocks(env: Env, t0: nat, failed: bool, minBlock: int, maxBlock: int, last: Option<Block>, ghost j: Job,
                      ghost g: Trace, ghost v: State)
    returns (stop: Option<Outcome>, t: nat, safe: bool)
    requires Sound(env) && env == j.env && maxBlock == j.maxBlock && t0 < |env| && minBlock < maxBlock
    requires Between(j, v, t0, minBlock, last, g)
    requires if failed then minBlock < 0 else |env[t0].chain| <= minBlock
    requires StartsBeyond(env, j.start, maxBlock) ==> t0 == 0 && v == j.before
    ensures t > t0 && (stop.None? ==> !safe && !StartsBeyond(env, j.start, maxBlock))
    ensures stop.None? ==> Between(j, v, t, minBlock, last, g)
    ensures stop.Some? ==> Result(j, v, stop.value, safe, g, t - 1)
  {
    safe, stop, t := false, None, t0 + 1;
    if failed {
      stop := Some(DatabaseError);
      FailsHere(j, v, t0, minBlock, last, g);
    } else if maxBlock != MAX_INT32 {
      stop := Some(Done(last));
      EndsHere(j, v, t0, minBlock, last, g);
    } else if t == |env| {
      stop := Some(Unfinished);
      ShortHere(j, v, t0, minBlock, last, g);
    } else {
      safe := AtTip(env[t], last);
      t := t + 1;
      if safe {
        stop := Some(Done(last));
        RegistersThere(j, v, t0, minBlock, last, g);
      } else {
        GrewMeanwhile(j, v, t0, minBlock, last, g);
      }
    }
  }

  lemma FailsHere(j: Job, v: State, t: nat, minBlock: int, last: Option<Block>, g: Trace)
    requires Between(j, v, t, minBlock, last, g)
    requires t < |j.env| && minBlock < 0 && minBlock < j.maxBlock
    requires StartsBeyond(j.env, j.start, j.maxBlock) ==> t == 0
    ensures Result(j, v, DatabaseError, false, g, t)
  {
    NoneIsEnough(j.env, g.looks, j.maxBlock, DatabaseError);
  }

  lemma EndsHere(j: Job, v: State, t: nat, minBlock: int, last: Option<Block>, g: Trace)
    requires Between(j, v, t, minBlock, last, g)
    requires t < |j.env| && |j.env[t].chain| <= minBlock < j.maxBlock
    requires j.maxBlock != MAX_INT32
    ensures Result(j, v, Done(last), false, g, t)
  {
    NoneIsEnough(j.env, g.looks, j.maxBlock, Done(last));
  }

  lemma ShortHere(j: Job, v: State, t: nat, minBlock: int, last: Option<Block>, g: Trace)
    requires Between(j, v, t, minBlock, last, g)
    requires t + 1 == |j.env| && |j.env[t].chain| <= minBlock < j.maxBlock
    requires StartsBeyond(j.env, j.start, j.maxBlock) ==> t == 0
    ensures Result(j, v, Unfinished, false, g, t)
  {
    NoneIsEnough(j.env, g.looks, j.maxBlock, Unfinished);
    if Smooth(j.env) {
      assert Calm(j.env, t);
    }
  }

  lemma RegistersThere(j: Job, v: State, t: nat, minBlock: int, last: Option<Block>, g: Trace)
    requires Sound(j.env) && Between(j, v, t, minBlock, last, g)
    requires t + 1 < |j.env|
    requires |j.env[t].chain| <= minBlock < j.maxBlock == MAX_INT32 && AtTip(j.env[t + 1], last)
    requires StartsBeyond(j.env, j.start, j.maxBlock) ==> t == 0 && v == j.before
    ensures Result(j, v, Done(last), true, g, t + 1)
  {
    NoneIsEnough(j.env, g.looks, j.maxBlock, Done(last));
  }

  /** Two moments later all is as it was, and there is a new block if the chain only grows. */
  lemma GrewMeanwhile(j: Job, v: State, t: nat, minBlock: int, last: Option<Block>, g: Trace)
    requires Sound(j.env) && Between(j, v, t, minBlock, last, g)
    requires t + 1 < |j.env| && |j.env[t].chain| <= minBlock
    requires last.Some? && last.value.hash != j.env[t + 1].chain[|j.env[t + 1].chain| - 1].hash
    ensures Between(j, v, t + 2, minBlock, last, g)
  {
    if Smooth(j.env) && 0 <= j.start {
      TipIsNew(j, t, g);
    }
    BetweenLater(j, v, t, minBlock, last, g, t + 2);
  }

  lemma TipIsNew(j: Job, t: nat, g: Trace)
    requires Sound(j.env) && Smooth(j.env) && 0 <= j.start && OneRun(j.env, g.scanned, j.start) && g.scanned != []
    requires PaceBetween(j, t, g) && t + 1 < |j.env| && |j.env[t].chain| <= j.start + |g.scanned|
    requires Last(g.scanned).value.hash != j.env[t + 1].chain[|j.env[t + 1].chain| - 1].hash
    ensures PaceBetween(j, t + 2, g)
  {
    assert Calm(j.env, t) && Calm(j.env, t + 1);
    if |j.env[t + 1].chain| <= j.start + |g.scanned| {
      OneAtHeight(j.env, Last(g.scanned).value, t + 1);
    }
  }

  lemma BetweenLater(j: Job, v: State, t: nat, minBlock: int, last: Option<Block>, g: Trace, t': nat)
    requires Between(j, v, t, minBlock, last, g) && t <= t' <= |j.env| && PaceBetween(j, t', g) && g.scanned != []
    ensures Between(j, v, t', minBlock, last, g)
  {
  }

  // ---------------------------------------------------------------- the whole rescan

  /**
   * The whole rescan.  Whatever the chain does meanwhile, the scanned blocks are one linked run of
   * consecutive heights from the first on, and the client hears exactly the notes of these blocks and
   * one progress note per tick, or as many as it waits for.  Nothing ends it without its cause, and while
   * the chain only grows it gets done.  Registration for live notifications misses no block from the
   * first on exactly if a block was scanned or there is still none; what is registered is then the fold
   * over all of them.  Recovery is tried exactly for a block that is on the main chain and that the store
   * lacks; a listed block that left the main chain ends the rescan with a database error.  A rescan
   * through the current tip that is done has registered the client unless recovery found no more blocks.
   */
  method ScanBlockChunks(wsc: WsClient, keys: Keys, env: Env, minBlock0: int, maxBlock: int)
    returns (res: Outcome, registered: Option<set<OutPoint>>, ghost g: Trace, ghost at: nat)
    requires Sound(env)
    modifies wsc, keys`unspent
    ensures Finished(Job(env, maxBlock, minBlock0, old(Now(wsc, keys)), keys.addrs), Now(wsc, keys), res, g)
    ensures registered.Some? ==> res.Done? && minBlock0 + |g.scanned| < maxBlock == MAX_INT32
    ensures registered.Some? ==> registered.value == keys.unspent
    ensures registered.Some? ==> RegistersAt(env, at, minBlock0, g.scanned)
    ensures registered.Some? && !g.cut && (g.scanned != [] || |env[at].chain| <= minBlock0) ==>
              registered.value == AfterBlocks(old(keys.unspent), keys.addrs, From(env[at].chain, minBlock0))
    ensures res.Done? && maxBlock == MAX_INT32 && minBlock0 + |g.scanned| < maxBlock ==>
              (registered.None? <==> JustRecovered(g.looks))
    ensures StartsBeyond(env, minBlock0, maxBlock) ==>
              registered == Some(old(keys.unspent)) && at == 1 && g.scanned == []
  {
    ghost var j := Job(env, maxBlock, minBlock0, Now(wsc, keys), keys.addrs);
    var done;
    res, done, g, at := ScanLists(wsc, keys, env, minBlock0, maxBlock, j);
    if done {
      TipReached(env, at, minBlock0, g.scanned);
    }
    registered := if done then Some(keys.unspent) else None;
  }
}
