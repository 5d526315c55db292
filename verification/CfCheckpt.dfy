/**
 * The cfcheckpt reply and its cache (btcd/server.go, OnGetCFCheckpt), per filter type.
 *
 * A request names a stop block; the chain turns it into the hashes of the blocks at every
 * interval up to it.  The true filter header of a block is a function of its hash; a lookup
 * finds it or, for a block the filter index does not have, fails.
 */
module CfCheckpt {
  import opened Options
  import opened BlockTree
  import opened ChainViews
  import opened BlockIndexes

  const ZERO_HASH: Hash := 0

  datatype Entry = Entry(blockHash: Hash, filterHeader: Hash)

  /** room: `append` finds enough capacity behind the cached slice to grow it in place. */
  datatype Request = Request(hashes: seq<Hash>, room: bool, available: set<Hash>)

  datatype Served = Served(cache: seq<Entry>, reply: Option<seq<Hash>>)

  // ---------------------------------------------------------------- one request, on values

  const BLANK := Entry(ZERO_HASH, ZERO_HASH)

  /** The cached slice extended with zero entries to at least n places. */
  function Padded(cache: seq<Entry>, n: nat): (p: seq<Entry>)
    ensures |p| == if n > |cache| then n else |cache|
    ensures forall i :: 0 <= i < |p| ==> p[i] == if i < |cache| then cache[i] else BLANK
  {
    if n > |cache| then cache + seq(n - |cache|, _ => BLANK) else cache
  }

  /** The backwards search for the last cached interval that the request shares. */
  function ForkIdx(p: seq<Entry>, hashes: seq<Hash>, n: nat): (f: nat)
    requires n <= |p| && n <= |hashes|
    ensures f <= n
    ensures f > 0 ==> p[f - 1].blockHash == hashes[f - 1]
    ensures forall i :: f <= i < n ==> p[i].blockHash != hashes[i]
  {
    if n == 0 || p[n - 1].blockHash == hashes[n - 1] then n else ForkIdx(p, hashes, n - 1)
  }

  /** The place of the first lookup that fails, from f on. */
  function Reach(hashes: seq<Hash>, f: nat, available: set<Hash>): (e: nat)
    requires f <= |hashes|
    ensures f <= e <= |hashes|
    ensures forall i :: f <= i < e ==> hashes[i] in available
    ensures e < |hashes| ==> hashes[e] !in available
    decreases |hashes| - f
  {
    if f == |hashes| || hashes[f] !in available then f else Reach(hashes, f + 1, available)
  }

  function TrueEntry(hash: Hash, header: Hash -> Hash): Entry {
    Entry(hash, header(hash))
  }

  /** Places f up to e of p replaced by looked-up entries. */
  function Patch(p: seq<Entry>, hashes: seq<Hash>, f: nat, e: nat, header: Hash -> Hash): (q: seq<Entry>)
    requires e <= |hashes|
    ensures |q| == |p|
    ensures forall i :: 0 <= i < |p| ==> q[i] == if f <= i < e then TrueEntry(hashes[i], header) else p[i]
  {
    seq(|p|, i requires 0 <= i < |p| => if f <= i < e then TrueEntry(hashes[i], header) else p[i])
  }

  lemma PatchIs(q: seq<Entry>, p: seq<Entry>, hashes: seq<Hash>, f: nat, e: nat, header: Hash -> Hash)
    requires e <= |hashes| && |q| == |p|
    requires forall i :: 0 <= i < |p| ==> q[i] == if f <= i < e then TrueEntry(hashes[i], header) else p[i]
    ensures q == Patch(p, hashes, f, e, header)
  {
  }

  /** Cached headers below f, looked-up headers from there on. */
  function Answer(p: seq<Entry>, hashes: seq<Hash>, f: nat, header: Hash -> Hash): (r: seq<Hash>)
    requires f <= |p|
    ensures |r| == |hashes|
    ensures forall i :: 0 <= i < |hashes| ==> r[i] == if i < f then p[i].filterHeader else header(hashes[i])
  {
    seq(|hashes|, i requires 0 <= i < |hashes| => if i < f then p[i].filterHeader else header(hashes[i]))
  }

  function Serve(cache: seq<Entry>, r: Request, header: Hash -> Hash): Served {
    var update := |r.hashes| > |cache|;
    var p := Padded(cache, |r.hashes|);
    var f := ForkIdx(p, r.hashes, |r.hashes|);
    var e := Reach(r.hashes, f, r.available);
    if e == |r.hashes| then
      Served(if update then Patch(p, r.hashes, f, e, header) else cache, Some(Answer(p, r.hashes, f, header)))
    else
      Served(if update && r.room then Patch(cache, r.hashes, f, e, header) else cache, None)
  }

  /** What the reply should be: the true header of every interval block. */
  function Expected(hashes: seq<Hash>, header: Hash -> Hash): (r: seq<Hash>)
    ensures |r| == |hashes| && forall i :: 0 <= i < |hashes| ==> r[i] == header(hashes[i])
  {
    seq(|hashes|, i requires 0 <= i < |hashes| => header(hashes[i]))
  }

  // ---------------------------------------------------------------- interval lists of a tree

  /** Two branches of one tree: sharing a block means sharing everything below it. */
  ghost predicate Coherent(a: seq<Hash>, b: seq<Hash>) {
    forall i, k :: 0 <= i <= k < |a| && k < |b| && a[k] == b[k] ==> a[i] == b[i]
  }

  ghost predicate Family(lists: set<seq<Hash>>) {
    && (forall a :: a in lists ==> ZERO_HASH !in a)
    && (forall a, b :: a in lists && b in lists ==> Coherent(a, b))
  }

  /** The cache runs along the list a, with true headers. */
  ghost predicate Follows(cache: seq<Entry>, a: seq<Hash>, header: Hash -> Hash) {
    |cache| <= |a| && forall i :: 0 <= i < |cache| ==> cache[i] == TrueEntry(a[i], header)
  }

  /** The cache is a prefix of the interval list of some branch, with true headers. */
  ghost predicate OneBranch(cache: seq<Entry>, lists: set<seq<Hash>>, header: Hash -> Hash) {
    cache == [] || exists a :: a in lists && Follows(cache, a, header)
  }

  /** Up to the fork index the cache already holds the request. */
  lemma MatchReachesDown(cache: seq<Entry>, hashes: seq<Hash>, lists: set<seq<Hash>>, header: Hash -> Hash)
    requires Family(lists) && OneBranch(cache, lists, header) && hashes in lists
    ensures var f := ForkIdx(Padded(cache, |hashes|), hashes, |hashes|);
      f <= |cache| && forall i :: 0 <= i < f ==> cache[i] == TrueEntry(hashes[i], header)
  {
    var p := Padded(cache, |hashes|);
    var f := ForkIdx(p, hashes, |hashes|);
    if f > 0 {
      assert hashes[f - 1] in hashes;
      assert f <= |cache|;
      var a :| a in lists && Follows(cache, a, header);
      assert Coherent(a, hashes);
      assert a[f - 1] == hashes[f - 1];
    }
  }

  /** A request whose lookups beyond the fork all succeed. */
  lemma CompleteStep(cache: seq<Entry>, r: Request, lists: set<seq<Hash>>, header: Hash -> Hash)
    requires Family(lists) && OneBranch(cache, lists, header) && r.hashes in lists
    requires Reach(r.hashes, ForkIdx(Padded(cache, |r.hashes|), r.hashes, |r.hashes|), r.available) == |r.hashes|
    ensures var s := Serve(cache, r, header);
      s.reply == Some(Expected(r.hashes, header)) && OneBranch(s.cache, lists, header)
  {
    MatchReachesDown(cache, r.hashes, lists, header);
    var p := Padded(cache, |r.hashes|);
    var f := ForkIdx(p, r.hashes, |r.hashes|);
    assert Answer(p, r.hashes, f, header) == Expected(r.hashes, header);
    if |r.hashes| > |cache| {
      assert Follows(Patch(p, r.hashes, f, |r.hashes|, header), r.hashes, header);
    }
  }

  /** With every lookup succeeding the reply is right and the cache stays on one branch. */
  lemma ServeIsRight(cache: seq<Entry>, r: Request, lists: set<seq<Hash>>, header: Hash -> Hash)
    requires Family(lists) && OneBranch(cache, lists, header) && r.hashes in lists
    requires forall h :: h in r.hashes ==> h in r.available
    ensures var s := Serve(cache, r, header);
      s.reply == Some(Expected(r.hashes, header)) && OneBranch(s.cache, lists, header)
  {
    CompleteStep(cache, r, lists, header);
  }

  // ---------------------------------------------------------------- runs

  /** The cached slice, with the capacity of the array behind it. */
  datatype Slice = Slice(entries: seq<Entry>, capacity: nat)

  /** A request as it comes in; newCap is the capacity that `append` chooses if it has to allocate. */
  datatype Call = Call(hashes: seq<Hash>, available: set<Hash>, newCap: nat)

  function RequestOf(s: Slice, c: Call): Request {
    Request(c.hashes, |c.hashes| <= s.capacity, c.available)
  }

  function ReplyTo(s: Slice, c: Call, header: Hash -> Hash): Option<seq<Hash>> {
    Serve(s.entries, RequestOf(s, c), header).reply
  }

  /** The slice afterwards; only a reply that outgrew the array leaves another one behind. */
  function After(s: Slice, c: Call, header: Hash -> Hash): Slice {
    Slice(Serve(s.entries, RequestOf(s, c), header).cache,
          if ReplyTo(s, c, header).Some? && |c.hashes| > |s.entries| && |c.hashes| > s.capacity then c.newCap
          else s.capacity)
  }

  /** The slices between the requests of a run, from the empty cache on. */
  ghost predicate IsRun(states: seq<Slice>, cs: seq<Call>, header: Hash -> Hash) {
    && |states| == |cs| + 1 && states[0] == Slice([], 0)
    && forall i :: 0 <= i < |cs| ==> states[i + 1] == After(states[i], cs[i], header)
  }

  /** Requests that name branches of one tree. */
  ghost predicate Named(cs: seq<Call>, lists: set<seq<Hash>>) {
    forall i :: 0 <= i < |cs| ==> cs[i].hashes in lists
  }

  predicate AllAvailable(c: Call) {
    forall h :: h in c.hashes ==> h in c.available
  }

  lemma {:induction false} RunStaysOnOneBranch(states: seq<Slice>, cs: seq<Call>, n: nat, lists: set<seq<Hash>>,
                                               header: Hash -> Hash)
    requires Family(lists) && Named(cs, lists) && IsRun(states, cs, header) && n <= |cs|
    requires forall j :: 0 <= j < n ==> AllAvailable(cs[j])
    ensures OneBranch(states[n].entries, lists, header)
  {
    if n > 0 {
      RunStaysOnOneBranch(states, cs, n - 1, lists, header);
      ServeIsRight(states[n - 1].entries, RequestOf(states[n - 1], cs[n - 1]), lists, header);
      assert states[n - 1 + 1] == After(states[n - 1], cs[n - 1], header);
    }
  }

  /** Every reply of every run whose lookups all succeed, on whatever forks, equals the direct lookups. */
  lemma EveryReplyIsDirect(states: seq<Slice>, cs: seq<Call>, i: nat, lists: set<seq<Hash>>, header: Hash -> Hash)
    requires Family(lists) && Named(cs, lists) && IsRun(states, cs, header) && i < |cs|
    requires forall j :: 0 <= j < |cs| ==> AllAvailable(cs[j])
    ensures ReplyTo(states[i], cs[i], header) == Some(Expected(cs[i].hashes, header))
  {
    RunStaysOnOneBranch(states, cs, i, lists, header);
    ServeIsRight(states[i].entries, RequestOf(states[i], cs[i]), lists, header);
  }

  // ---------------------------------------------------------------- lookups that fail

  /** A lookup failed after some, but not all, entries of the shared backing array beyond the fork were replaced. */
  predicate LeavesMixedCache(cache: seq<Entry>, r: Request) {
    var f := ForkIdx(Padded(cache, |r.hashes|), r.hashes, |r.hashes|);
    var e := Reach(r.hashes, f, r.available);
    |r.hashes| > |cache| && r.room && e < |r.hashes| && f < e < |cache|
  }

  /** The cache stays on one branch exactly when the failure did not stop in the middle of it. */
  lemma OneBranchUnlessMixed(cache: seq<Entry>, r: Request, lists: set<seq<Hash>>, header: Hash -> Hash)
    requires Family(lists) && OneBranch(cache, lists, header) && r.hashes in lists
    ensures OneBranch(Serve(cache, r, header).cache, lists, header) <==> !LeavesMixedCache(cache, r)
  {
    var f := ForkIdx(Padded(cache, |r.hashes|), r.hashes, |r.hashes|);
    var e := Reach(r.hashes, f, r.available);
    if e == |r.hashes| {
      CompleteStep(cache, r, lists, header);
    } else if |r.hashes| > |cache| && r.room {
      MatchReachesDown(cache, r.hashes, lists, header);
      var after := Patch(cache, r.hashes, f, e, header);
      if f == e || f == |cache| {
        assert after == cache;
      } else if e < |cache| {
        MixedIsNoBranch(cache, after, r.hashes, f, e, lists, header);
      } else {
        assert Follows(after, r.hashes, header);
      }
    }
  }

  lemma MixedIsNoBranch(cache: seq<Entry>, after: seq<Entry>, hashes: seq<Hash>, f: nat, e: nat,
                        lists: set<seq<Hash>>, header: Hash -> Hash)
    requires Family(lists) && OneBranch(cache, lists, header) && hashes in lists
    requires f < e < |cache| == |after| && e <= |hashes|
    requires after[f] == TrueEntry(hashes[f], header) && after[e] == cache[e]
    requires cache[f].blockHash != hashes[f]
    ensures !OneBranch(after, lists, header)
  {
    var a :| a in lists && Follows(cache, a, header);
    forall b | b in lists
      ensures !Follows(after, b, header)
    {
      assert Coherent(a, b);
      assert after[e] == TrueEntry(a[e], header);
      assert after[f].blockHash != a[f];
    }
  }

  // ---------------------------------------------------------------- replies once lookups may fail

  /** Every entry is the true entry of some branch at its own place, though not all of one branch. */
  ghost predicate Placed(cache: seq<Entry>, lists: set<seq<Hash>>, header: Hash -> Hash) {
    forall k :: 0 <= k < |cache| ==> PlacedAt(cache, lists, header, k)
  }

  ghost predicate PlacedAt(cache: seq<Entry>, lists: set<seq<Hash>>, header: Hash -> Hash, k: nat)
    requires k < |cache|
  {
    exists a :: a in lists && k < |a| && cache[k] == TrueEntry(a[k], header)
  }

  /** Whatever fails, no entry is ever false or out of place. */
  lemma ServeKeepsPlaced(cache: seq<Entry>, r: Request, lists: set<seq<Hash>>, header: Hash -> Hash)
    requires Family(lists) && Placed(cache, lists, header) && r.hashes in lists
    ensures Placed(Serve(cache, r, header).cache, lists, header)
  {
    var p := Padded(cache, |r.hashes|);
    var f := ForkIdx(p, r.hashes, |r.hashes|);
    var after := Serve(cache, r, header).cache;
    ForkWithinCache(cache, r.hashes);
    forall k | 0 <= k < |after|
      ensures PlacedAt(after, lists, header, k)
    {
      if k < |cache| && after[k] == cache[k] {
        assert PlacedAt(cache, lists, header, k);
      } else {
        assert k < |r.hashes| && after[k] == TrueEntry(r.hashes[k], header);
      }
    }
  }

  /** The blank entries behind the cache match no block. */
  lemma ForkWithinCache(cache: seq<Entry>, hashes: seq<Hash>)
    requires ZERO_HASH !in hashes
    ensures ForkIdx(Padded(cache, |hashes|), hashes, |hashes|) <= |cache|
  {
    var f := ForkIdx(Padded(cache, |hashes|), hashes, |hashes|);
    assert f > 0 ==> hashes[f - 1] != ZERO_HASH;
  }

  lemma {:induction false} RunKeepsPlaced(states: seq<Slice>, cs: seq<Call>, n: nat, lists: set<seq<Hash>>,
                                          header: Hash -> Hash)
    requires Family(lists) && Named(cs, lists) && IsRun(states, cs, header) && n <= |cs|
    ensures Placed(states[n].entries, lists, header)
  {
    if n > 0 {
      RunKeepsPlaced(states, cs, n - 1, lists, header);
      ServeKeepsPlaced(states[n - 1].entries, RequestOf(states[n - 1], cs[n - 1]), lists, header);
      assert states[n - 1 + 1] == After(states[n - 1], cs[n - 1], header);
    }
  }

  /** Different blocks have different filter headers. */
  ghost predicate Injective(header: Hash -> Hash) {
    forall x, y :: header(x) == header(y) ==> x == y
  }

  /** A reply is right exactly if the cache below the fork is that of the requested branch. */
  lemma ReplyIsRight(cache: seq<Entry>, r: Request, lists: set<seq<Hash>>, header: Hash -> Hash)
    requires Family(lists) && Placed(cache, lists, header) && r.hashes in lists && Injective(header)
    requires Serve(cache, r, header).reply.Some?
    ensures ForkIdx(Padded(cache, |r.hashes|), r.hashes, |r.hashes|) <= |cache|
    ensures Serve(cache, r, header).reply == Some(Expected(r.hashes, header)) <==>
            forall i :: 0 <= i < ForkIdx(Padded(cache, |r.hashes|), r.hashes, |r.hashes|) ==>
              cache[i].blockHash == r.hashes[i]
  {
    var p := Padded(cache, |r.hashes|);
    var f := ForkIdx(p, r.hashes, |r.hashes|);
    ForkWithinCache(cache, r.hashes);
    var reply, expected := Answer(p, r.hashes, f, header), Expected(r.hashes, header);
    forall i | 0 <= i < f
      ensures reply[i] == expected[i] <==> cache[i].blockHash == r.hashes[i]
    {
      assert PlacedAt(cache, lists, header, i);
    }
    if forall i :: 0 <= i < f ==> cache[i].blockHash == r.hashes[i] {
      assert reply == expected;
    }
  }

  /** A request of the family whose lookups all succeed and whose reply is wrong. */
  ghost predicate Wronged(s: Slice, c: Call, lists: set<seq<Hash>>, header: Hash -> Hash) {
    c.hashes in lists && AllAvailable(c) && ReplyTo(s, c, header) != Some(Expected(c.hashes, header))
  }

  /** Whoever asks for the branch of the last entry is told the headers of the other entries too. */
  lemma MixedCacheWrongs(s: Slice, lists: set<seq<Hash>>, header: Hash -> Hash) returns (c: Call)
    requires Family(lists) && Placed(s.entries, lists, header) && Injective(header)
    requires !OneBranch(s.entries, lists, header)
    ensures Wronged(s, c, lists, header)
  {
    var a := LastBranch(s.entries, lists, header);
    c := Call(a, set h | h in a, |a|);
    assert AllAvailable(c);
    LastMatchIsFork(s.entries, a);
    var i := Misplaced(s.entries, a, lists, header);
    if ReplyTo(s, c, header).Some? {
      ReplyIsRight(s.entries, RequestOf(s, c), lists, header);
    }
  }

  lemma LastBranch(cache: seq<Entry>, lists: set<seq<Hash>>, header: Hash -> Hash) returns (a: seq<Hash>)
    requires cache != [] && Placed(cache, lists, header)
    ensures a in lists && |cache| <= |a| && cache[|cache| - 1] == TrueEntry(a[|cache| - 1], header)
  {
    assert PlacedAt(cache, lists, header, |cache| - 1);
    a :| a in lists && |cache| - 1 < |a| && cache[|cache| - 1] == TrueEntry(a[|cache| - 1], header);
  }

  lemma Misplaced(cache: seq<Entry>, a: seq<Hash>, lists: set<seq<Hash>>, header: Hash -> Hash) returns (i: nat)
    requires Placed(cache, lists, header) && a in lists && |cache| <= |a| && !OneBranch(cache, lists, header)
    ensures i < |cache| && cache[i].blockHash != a[i]
  {
    assert !Follows(cache, a, header);
    i :| 0 <= i < |cache| && cache[i] != TrueEntry(a[i], header);
    assert PlacedAt(cache, lists, header, i);
  }

  lemma LastMatchIsFork(cache: seq<Entry>, hashes: seq<Hash>)
    requires 0 < |cache| <= |hashes| && cache[|cache| - 1].blockHash == hashes[|cache| - 1]
    ensures ForkIdx(Padded(cache, |hashes|), hashes, |hashes|) >= |cache|
  {
  }

  /** The request stops in the middle of the cache. */
  predicate Mixes(s: Slice, c: Call) {
    LeavesMixedCache(s.entries, RequestOf(s, c))
  }

  lemma {:induction false} UnmixedStaysOnOneBranch(states: seq<Slice>, cs: seq<Call>, n: nat, lists: set<seq<Hash>>,
                                                   header: Hash -> Hash)
    requires Family(lists) && Named(cs, lists) && IsRun(states, cs, header) && n <= |cs|
    requires forall j :: 0 <= j < n ==> !Mixes(states[j], cs[j])
    ensures OneBranch(states[n].entries, lists, header)
  {
    if n > 0 {
      UnmixedStaysOnOneBranch(states, cs, n - 1, lists, header);
      OneBranchUnlessMixed(states[n - 1].entries, RequestOf(states[n - 1], cs[n - 1]), lists, header);
      assert !Mixes(states[n - 1], cs[n - 1]);
      assert states[n - 1 + 1] == After(states[n - 1], cs[n - 1], header);
    }
  }

  /** In a run that has mixed nothing a reply that is given is right, whatever lookups fail. */
  lemma EveryGivenReplyIsRight(states: seq<Slice>, cs: seq<Call>, i: nat, lists: set<seq<Hash>>, header: Hash -> Hash)
    requires Family(lists) && Named(cs, lists) && IsRun(states, cs, header) && i < |cs|
    requires forall j :: 0 <= j < i ==> !Mixes(states[j], cs[j])
    ensures ReplyTo(states[i], cs[i], header) in {None, Some(Expected(cs[i].hashes, header))}
    ensures AllAvailable(cs[i]) ==> ReplyTo(states[i], cs[i], header).Some?
  {
    UnmixedStaysOnOneBranch(states, cs, i, lists, header);
    if ReplyTo(states[i], cs[i], header).Some? {
      CompleteStep(states[i].entries, RequestOf(states[i], cs[i]), lists, header);
    }
  }

  /** In this state some answerable request of the family would get a wrong reply. */
  ghost predicate Spoiled(s: Slice, lists: set<seq<Hash>>, header: Hash -> Hash) {
    exists c :: Wronged(s, c, lists, header)
  }

  /** A state spoils replies exactly if its cache is not of one branch. */
  lemma SpoiledExactlyIfMixed(s: Slice, lists: set<seq<Hash>>, header: Hash -> Hash)
    requires Family(lists) && Placed(s.entries, lists, header) && Injective(header)
    ensures Spoiled(s, lists, header) <==> !OneBranch(s.entries, lists, header)
  {
    if OneBranch(s.entries, lists, header) {
      forall c
        ensures !Wronged(s, c, lists, header)
      {
        if c.hashes in lists && AllAvailable(c) {
          ServeIsRight(s.entries, RequestOf(s, c), lists, header);
        }
      }
    } else {
      var c := MixedCacheWrongs(s, lists, header);
    }
  }

  /**
   * Whatever lookups fail: at every point of a run every answerable request gets the right reply if
   * and only if no request of the run stopped in the middle of the cache.
   */
  lemma RightExactlyWhileUnmixed(states: seq<Slice>, cs: seq<Call>, lists: set<seq<Hash>>, header: Hash -> Hash)
    requires Family(lists) && Named(cs, lists) && IsRun(states, cs, header) && Injective(header)
    ensures (forall n :: 0 <= n <= |cs| ==> !Spoiled(states[n], lists, header)) <==>
            (forall j :: 0 <= j < |cs| ==> !Mixes(states[j], cs[j]))
  {
    forall n | 0 <= n <= |cs|
      ensures Spoiled(states[n], lists, header) <==> !OneBranch(states[n].entries, lists, header)
    {
      RunKeepsPlaced(states, cs, n, lists, header);
      SpoiledExactlyIfMixed(states[n], lists, header);
    }
    if forall j :: 0 <= j < |cs| ==> !Mixes(states[j], cs[j]) {
      forall n | 0 <= n <= |cs|
        ensures !Spoiled(states[n], lists, header)
      {
        UnmixedStaysOnOneBranch(states, cs, n, lists, header);
      }
    } else {
      var j := FirstMix(states, cs);
      UnmixedStaysOnOneBranch(states, cs, j, lists, header);
      OneBranchUnlessMixed(states[j].entries, RequestOf(states[j], cs[j]), lists, header);
      assert Spoiled(states[j + 1], lists, header);
    }
  }

  lemma FirstMix(states: seq<Slice>, cs: seq<Call>) returns (j: nat)
    requires |states| == |cs| + 1 && exists i :: 0 <= i < |cs| && Mixes(states[i], cs[i])
    ensures j < |cs| && Mixes(states[j], cs[j]) && forall i :: 0 <= i < j ==> !Mixes(states[i], cs[i])
  {
    j := 0;
    while !Mixes(states[j], cs[j])
      invariant j < |cs| && forall i :: 0 <= i < j ==> !Mixes(states[i], cs[i])
      decreases |cs| - j
    {
      j := j + 1;
    }
  }

  // ---------------------------------------------------------------- a run that goes wrong

  function EntriesOf(hashes: seq<Hash>, header: Hash -> Hash): (r: seq<Entry>)
    ensures |r| == |hashes| && forall i :: 0 <= i < |r| ==> r[i] == TrueEntry(hashes[i], header)
  {
    seq(|hashes|, i requires 0 <= i < |hashes| => TrueEntry(hashes[i], header))
  }

  /** A cache that is extended with success holds the request. */
  lemma Extended(s: Slice, c: Call, header: Hash -> Hash)
    requires ZERO_HASH !in c.hashes && |s.entries| <= |c.hashes| && |s.entries| < |c.hashes| && AllAvailable(c)
    requires forall i :: 0 <= i < |s.entries| ==> s.entries[i] == TrueEntry(c.hashes[i], header)
    ensures After(s, c, header) ==
            Slice(EntriesOf(c.hashes, header), if |c.hashes| > s.capacity then c.newCap else s.capacity)
  {
    ForkWithinCache(s.entries, c.hashes);
    var p := Padded(s.entries, |c.hashes|);
    var f := ForkIdx(p, c.hashes, |c.hashes|);
    assert Patch(p, c.hashes, f, |c.hashes|, header) == EntriesOf(c.hashes, header);
  }

  lemma ThreeBranches()
    ensures Family({[1, 2], [1, 2, 6], [3, 4, 5, 7]})
  {
    var x: seq<Hash>, y: seq<Hash>, z: seq<Hash> := [1, 2], [1, 2, 6], [3, 4, 5, 7];
    forall a, b | a in {x, y, z} && b in {x, y, z}
      ensures Coherent(a, b)
    {
    }
  }

  /** The third request overwrites the first entry in place and then fails. */
  lemma StopsInTheMiddle(header: Hash -> Hash, newCap: nat)
    ensures After(Slice(EntriesOf([1, 2, 6], header), 4), Call([3, 4, 5, 7], {3}, newCap), header) ==
            Slice(EntriesOf([3, 2, 6], header), 4)
  {
    var cache, hashes: seq<Hash> := EntriesOf([1, 2, 6], header), [3, 4, 5, 7];
    var p := Padded(cache, 4);
    assert p[3] == BLANK && p[2].blockHash == 6 && p[1].blockHash == 2 && p[0].blockHash == 1;
    assert ForkIdx(p, hashes, 4) == 0;
    assert Reach(hashes, 0, {3}) == 1;
    assert Patch(cache, hashes, 0, 1, header) == EntriesOf([3, 2, 6], header);
  }

  lemma WrongReply(header: Hash -> Hash, newCap: nat)
    ensures ReplyTo(Slice(EntriesOf([3, 2, 6], header), 4), Call([1, 2, 6], {1, 2, 6}, newCap), header) ==
            Some([header(3), header(2), header(6)])
  {
    var cache, hashes: seq<Hash> := EntriesOf([3, 2, 6], header), [1, 2, 6];
    assert ForkIdx(cache, hashes, 3) == 3;
    assert Reach(hashes, 3, {1, 2, 6}) == 3;
    assert Answer(cache, hashes, 3, header) == [header(3), header(2), header(6)];
  }

  /**
   * Two requests on one branch, one on another that fails after its first lookup, and the second
   * again, which is now answered with a header of the other branch.  The capacities are those that
   * growing by doubling gives, so the third request finds room in place.
   */
  lemma FailedLookupSpoilsLaterReply(header: Hash -> Hash) returns (states: seq<Slice>, cs: seq<Call>)
    requires header(1) != header(3)
    ensures IsRun(states, cs, header) && |cs| == 4 && cs[0].newCap == 2 && cs[1].newCap == 4
    ensures Family({cs[0].hashes, cs[1].hashes, cs[2].hashes}) && cs[3] == cs[1]
    ensures AllAvailable(cs[0]) && AllAvailable(cs[1]) && Mixes(states[2], cs[2])
    ensures ReplyTo(states[3], cs[3], header).Some?
    ensures ReplyTo(states[3], cs[3], header) != Some(Expected(cs[3].hashes, header))
  {
    var a, b, c := Call([1, 2], {1, 2}, 2), Call([1, 2, 6], {1, 2, 6}, 4), Call([3, 4, 5, 7], {3}, 4);
    var s := FourStates(a, b, c, header);
    cs, states := [a, b, c, b], s;
    ThreeBranches();
    FoundInTheMiddle(header);
    WrongReply(header, 4);
    assert Expected(b.hashes, header)[0] == header(1);
  }

  lemma FourStates(a: Call, b: Call, c: Call, header: Hash -> Hash) returns (states: seq<Slice>)
    requires a == Call([1, 2], {1, 2}, 2) && b == Call([1, 2, 6], {1, 2, 6}, 4) && c == Call([3, 4, 5, 7], {3}, 4)
    ensures IsRun(states, [a, b, c, b], header)
    ensures states[2] == Slice(EntriesOf([1, 2, 6], header), 4) && states[3] == Slice(EntriesOf([3, 2, 6], header), 4)
  {
    var s0, s1 := Slice([], 0), Slice(EntriesOf([1, 2], header), 2);
    var s2, s3 := Slice(EntriesOf([1, 2, 6], header), 4), Slice(EntriesOf([3, 2, 6], header), 4);
    assert After(s0, a, header) == s1 by {
      Extended(s0, a, header);
    }
    assert After(s1, b, header) == s2 by {
      Extended(s1, b, header);
    }
    StopsInTheMiddle(header, 4);
    states := OneMore([s0], [], a, header);
    states := OneMore(states, [] + [a], b, header);
    states := OneMore(states, [] + [a] + [b], c, header);
    states := OneMore(states, [] + [a] + [b] + [c], b, header);
    assert [] + [a] + [b] + [c] + [b] == [a, b, c, b];
  }

  /** A run goes on with any request. */
  lemma OneMore(states: seq<Slice>, cs: seq<Call>, c: Call, header: Hash -> Hash) returns (more: seq<Slice>)
    requires IsRun(states, cs, header)
    ensures IsRun(more, cs + [c], header) && |more| == |states| + 1
    ensures forall i :: 0 <= i < |states| ==> more[i] == states[i]
    ensures more[|states|] == After(states[|states| - 1], c, header)
  {
    var next, all := After(states[|states| - 1], c, header), cs + [c];
    more := states + [next];
    forall i | 0 <= i < |all|
      ensures more[i + 1] == After(more[i], all[i], header)
    {
      assert more[i] == states[i];
      if i < |cs| {
        assert all[i] == cs[i] && more[i + 1] == states[i + 1];
      } else {
        assert all[i] == c && more[i + 1] == next;
      }
    }
  }

  lemma FoundInTheMiddle(header: Hash -> Hash)
    ensures Mixes(Slice(EntriesOf([1, 2, 6], header), 4), Call([3, 4, 5, 7], {3}, 4))
  {
    var cache, hashes: seq<Hash> := EntriesOf([1, 2, 6], header), [3, 4, 5, 7];
    var p := Padded(cache, 4);
    assert p[3] == BLANK && p[2].blockHash == 6 && p[1].blockHash == 2 && p[0].blockHash == 1;
    assert ForkIdx(p, hashes, 4) == 0;
    assert Reach(hashes, 0, {3}) == 1;
  }

  // ---------------------------------------------------------------- the branches of a block index

  /** wire.CFCheckptInterval */
  const CF_CHECKPT_INTERVAL := 1000

  /** The hashes at every interval up to a node, by the plain walk. */
  ghost function Intervals(n: BlockNode): (s: seq<Hash>)
    requires n.Rooted()
    ensures |s| == n.height / CF_CHECKPT_INTERVAL
    ensures forall i :: 0 <= i < |s| ==> s[i] == IntervalHash(n, i)
  {
    seq(n.height / CF_CHECKPT_INTERVAL, i requires 0 <= i < n.height / CF_CHECKPT_INTERVAL => IntervalHash(n, i))
  }

  ghost function IntervalHash(n: BlockNode, i: nat): Hash
    requires n.Rooted() && (i + 1) * CF_CHECKPT_INTERVAL <= n.height
  {
    n.Walk((i + 1) * CF_CHECKPT_INTERVAL).header.hash
  }

  /** Nodes of one index with the same hash at a height have the same ancestors below it. */
  lemma SharedBelow(index: BlockIndex, a: BlockNode, b: BlockNode, h: nat, g: nat)
    requires index.Valid() && index.Holds(a) && index.Holds(b)
    requires g <= h && h <= a.height && h <= b.height
    requires a.Walk(h).header.hash == b.Walk(h).header.hash
    ensures a.Walk(g) == b.Walk(g)
  {
    index.AncestorsIndexed(a, h);
    index.AncestorsIndexed(b, h);
    WalkThrough(a, h, g);
    WalkThrough(b, h, g);
  }

  lemma IntervalsCoherent(index: BlockIndex, a: BlockNode, b: BlockNode)
    requires index.Valid() && index.Holds(a) && index.Holds(b)
    ensures Coherent(Intervals(a), Intervals(b))
  {
    var x, y := Intervals(a), Intervals(b);
    forall i, k | 0 <= i <= k < |x| && k < |y| && x[k] == y[k]
      ensures x[i] == y[i]
    {
      SharedBelow(index, a, b, (k + 1) * CF_CHECKPT_INTERVAL, (i + 1) * CF_CHECKPT_INTERVAL);
    }
  }

  /** The interval lists of every block in the index. */
  ghost function Branches(index: BlockIndex): set<seq<Hash>>
    requires index.Valid()
    reads index
  {
    set h | h in index.index :: Intervals(index.index[h])
  }

  /** The blocks of one index, forks and all, are branches of one tree. */
  lemma BranchesAreFamily(index: BlockIndex)
    requires index.Valid() && ZERO_HASH !in index.index
    ensures Family(Branches(index))
  {
    var lists := Branches(index);
    forall a | a in lists
      ensures ZERO_HASH !in a
    {
      var h :| h in index.index && a == Intervals(index.index[h]);
      IntervalsNotZero(index, index.index[h]);
    }
    forall a, b | a in lists && b in lists
      ensures Coherent(a, b)
    {
      BranchesCoherent(index, a, b);
    }
  }

  lemma BranchesCoherent(index: BlockIndex, a: seq<Hash>, b: seq<Hash>)
    requires index.Valid() && a in Branches(index) && b in Branches(index)
    ensures Coherent(a, b)
  {
    var h :| h in index.index && a == Intervals(index.index[h]);
    var k :| k in index.index && b == Intervals(index.index[k]);
    IntervalsCoherent(index, index.index[h], index.index[k]);
  }

  lemma IntervalsNotZero(index: BlockIndex, n: BlockNode)
    requires index.Valid() && ZERO_HASH !in index.index && index.Holds(n)
    ensures ZERO_HASH !in Intervals(n)
  {
    forall i | 0 <= i < |Intervals(n)|
      ensures Intervals(n)[i] != ZERO_HASH
    {
      index.AncestorsIndexed(n, (i + 1) * CF_CHECKPT_INTERVAL);
    }
  }

  /** IntervalBlockHashes, whose faster lookups through the best chain give the plain walk. */
  method IntervalBlockHashes(index: BlockIndex, view: ChainView, endHash: Hash) returns (r: Option<seq<Hash>>)
    requires index.Valid() && view.Valid()
    ensures r == if endHash in index.index && index.index[endHash].status & STATUS_VALID != 0
                 then Some(Intervals(index.index[endHash])) else None
  {
    if endHash !in index.index || index.index[endHash].status & STATUS_VALID == 0 {
      return None;
    }
    var hashes := WalkIntervals(view, index.index[endHash]);
    return Some(hashes);
  }

  /** One iteration: from a node of the branch down to interval i of it. */
  method StepToInterval(view: ChainView, node: BlockNode, ghost endNode: BlockNode, i: nat) returns (r: BlockNode)
    requires view.Valid() && OnBranch(node, endNode)
    requires 0 < i && i * CF_CHECKPT_INTERVAL <= node.height
    ensures OnBranch(r, endNode) && r.height == i * CF_CHECKPT_INTERVAL
    ensures r.header.hash == IntervalHash(endNode, i - 1)
  {
    BranchWalk(node, endNode, i * CF_CHECKPT_INTERVAL);
    r := view.AncestorInView(node, i * CF_CHECKPT_INTERVAL);
  }

  method WalkIntervals(view: ChainView, endNode: BlockNode) returns (hashes: seq<Hash>)
    requires view.Valid() && endNode.Built()
    ensures hashes == Intervals(endNode)
  {
    var count := endNode.height / CF_CHECKPT_INTERVAL;
    var a := new Hash[count];
    var blockNode := endNode;
    var i := count;
    while i > 0
      invariant 0 <= i <= count
      invariant OnBranch(blockNode, endNode)
      invariant i * CF_CHECKPT_INTERVAL <= blockNode.height
      invariant forall j :: i <= j < count ==> a[j] == IntervalHash(endNode, j)
    {
      blockNode := StepToInterval(view, blockNode, endNode, i);
      a[i - 1] := blockNode.header.hash;
      i := i - 1;
    }
    return a[..];
  }

  // ---------------------------------------------------------------- the cache as a shared slice

  class CheckpointCache {
    var backing: array<Entry>
    var len: nat

    ghost predicate Valid()
      reads this
    {
      len <= backing.Length
    }

    ghost function Entries(): seq<Entry>
      requires Valid()
      reads this, backing
    {
      backing[..len]
    }

    ghost function View(): Slice
      requires Valid()
      reads this, backing
    {
      Slice(Entries(), backing.Length)
    }

    constructor ()
      ensures Valid() && fresh(backing) && View() == Slice([], 0)
    {
      backing := new Entry[0];
      len := 0;
    }

    /** Makes the slice long enough, in place when the backing array has room. */
    method Extend(n: nat, newCap: nat) returns (cache: array<Entry>)
      requires Valid() && len < n <= newCap
      modifies backing
      ensures cache == backing || fresh(cache)
      ensures cache == backing <==> n <= backing.Length
      ensures n <= cache.Length && cache[..n] == Padded(old(Entries()), n)
      ensures cache != backing ==> cache.Length == newCap
      ensures Entries() == old(Entries())
    {
      ghost var padded := Padded(Entries(), n);
      if n <= backing.Length {
        cache := backing;
        for i := len to n
          invariant forall k :: 0 <= k < i ==> cache[k] == padded[k]
        {
          cache[i] := BLANK;
        }
        assert backing[..len] == padded[..len];
      } else {
        cache := new Entry[newCap](_ => BLANK);
        for i := 0 to len
          invariant backing[..len] == padded[..len]
          invariant forall k :: 0 <= k < i ==> cache[k] == padded[k]
          invariant forall k :: i <= k < newCap ==> cache[k] == BLANK
        {
          assert backing[i] == backing[..len][i];
          cache[i] := backing[i];
        }
      }
      assert cache[..n] == padded;
    }

    /**
     * OnGetCFCheckpt once the interval hashes are known; locks make the call atomic.
     */
    method OnGetCFCheckpt(hashes: seq<Hash>, available: set<Hash>, header: Hash -> Hash, newCap: nat)
      returns (reply: Option<seq<Hash>>)
      requires Valid() && |hashes| <= newCap
      modifies this, backing
      ensures Valid() && (backing == old(backing) || fresh(backing))
      ensures View() == After(old(View()), Call(hashes, available, newCap), header)
      ensures reply == ReplyTo(old(View()), Call(hashes, available, newCap), header)
    {
      if |hashes| > len {
        reply := ServeLonger(hashes, available, header, newCap);
      } else {
        ghost var before := Entries();
        ghost var f, e;
        f, e, reply := Respond(backing, hashes, before, available, header, false);
        assert Entries() == before;
      }
    }

    /** A request beyond the end of the cache, which it may extend. */
    method ServeLonger(hashes: seq<Hash>, available: set<Hash>, header: Hash -> Hash, newCap: nat)
      returns (reply: Option<seq<Hash>>)
      requires Valid() && len < |hashes| <= newCap
      modifies this, backing
      ensures Valid() && (backing == old(backing) || fresh(backing))
      ensures var s := Serve(old(Entries()), Request(hashes, |hashes| <= old(backing.Length), available), header);
        Entries() == s.cache && reply == s.reply
      ensures backing.Length == if reply.Some? && |hashes| > old(backing.Length) then newCap else old(backing.Length)
    {
      ghost var before := Entries();
      ghost var p := Padded(before, |hashes|);
      var cache := Extend(|hashes|, newCap);
      ghost var f, e;
      f, e, reply := Fill(cache, hashes, p, available, header);
      if reply.Some? {
        backing, len := cache, |hashes|;
      } else if cache == backing {
        PatchPrefix(before, p, hashes, f, e, header);
        assert backing[..len] == cache[..|hashes|][..len];
      }
    }
  }

  lemma PatchPrefix(a: seq<Entry>, p: seq<Entry>, hashes: seq<Hash>, f: nat, e: nat, header: Hash -> Hash)
    requires e <= |hashes| && |a| <= |p| && forall i :: 0 <= i < |a| ==> a[i] == p[i]
    ensures Patch(p, hashes, f, e, header)[..|a|] == Patch(a, hashes, f, e, header)
  {
  }

  /** The reply from an extended slice, with the looked-up entries written into it. */
  method Fill(cache: array<Entry>, hashes: seq<Hash>, ghost p: seq<Entry>, available: set<Hash>, header: Hash -> Hash)
    returns (ghost f: nat, ghost e: nat, reply: Option<seq<Hash>>)
    requires |hashes| <= cache.Length && cache[..|hashes|] == p
    modifies cache
    ensures f == ForkIdx(p, hashes, |hashes|)
    ensures e == Reach(hashes, f, available)
    ensures reply == if e == |hashes| then Some(Answer(p, hashes, f, header)) else None
    ensures cache[..|hashes|] == Patch(p, hashes, f, e, header)
    ensures cache[|hashes|..] == old(cache[|hashes|..])
  {
    assert forall i :: 0 <= i < |hashes| ==> cache[i] == p[i];
    f, e, reply := Respond(cache, hashes, p, available, header, true);
    PatchIs(cache[..|hashes|], p, hashes, f, e, header);
  }

  /** The reply from a slice that starts like p, and what it writes into the slice. */
  method Respond(cache: array<Entry>, hashes: seq<Hash>, ghost p: seq<Entry>, available: set<Hash>,
                 header: Hash -> Hash, update: bool)
    returns (ghost f: nat, ghost e: nat, reply: Option<seq<Hash>>)
    requires |hashes| <= cache.Length && |hashes| <= |p|
    requires forall i :: 0 <= i < |hashes| ==> cache[i] == p[i]
    modifies cache
    ensures f == ForkIdx(p, hashes, |hashes|)
    ensures e == Reach(hashes, f, available)
    ensures reply == if e == |hashes| then Some(Answer(p, hashes, f, header)) else None
    ensures forall i :: 0 <= i < cache.Length ==>
              cache[i] == if update && f <= i < e then TrueEntry(hashes[i], header) else old(cache[i])
  {
    var forkIdx := FindForkIdx(cache, hashes, p);
    f := forkIdx;
    var headers := CopyHeaders(cache, forkIdx);
    var reached, all := LookUp(cache, hashes, forkIdx, available, header, update, headers);
    e := reached;
    ReachIs(hashes, f, available, e);
    if reached < |hashes| {
      reply := None;
    } else {
      assert all == Answer(p, hashes, f, header);
      reply := Some(all);
    }
  }

  /** The backwards loop over the cache. */
  method FindForkIdx(cache: array<Entry>, hashes: seq<Hash>, ghost p: seq<Entry>) returns (f: nat)
    requires |hashes| <= cache.Length && |hashes| <= |p|
    requires forall i :: 0 <= i < |hashes| ==> cache[i] == p[i]
    ensures f == ForkIdx(p, hashes, |hashes|)
  {
    f := |hashes|;
    while f > 0
      invariant f <= |hashes|
      invariant ForkIdx(p, hashes, f) == ForkIdx(p, hashes, |hashes|)
    {
      if cache[f - 1].blockHash == hashes[f - 1] {
        break;
      }
      f := f - 1;
    }
  }

  /** The part of the reply that comes from the cache. */
  method CopyHeaders(cache: array<Entry>, n: nat) returns (headers: seq<Hash>)
    requires n <= cache.Length
    ensures |headers| == n && forall k :: 0 <= k < n ==> headers[k] == cache[k].filterHeader
  {
    headers := [];
    for i := 0 to n
      invariant |headers| == i && forall k :: 0 <= k < i ==> headers[k] == cache[k].filterHeader
    {
      headers := headers + [cache[i].filterHeader];
    }
  }

  /** The part of the reply that is looked up, which also fills the slice when it is being extended. */
  method LookUp(cache: array<Entry>, hashes: seq<Hash>, f: nat, available: set<Hash>, header: Hash -> Hash,
                update: bool, headers: seq<Hash>)
    returns (e: nat, all: seq<Hash>)
    requires f <= |hashes| <= cache.Length && |headers| == f
    modifies cache
    ensures f <= e <= |hashes| && |all| == e
    ensures forall i :: f <= i < e ==> hashes[i] in available
    ensures e < |hashes| ==> hashes[e] !in available
    ensures forall i :: 0 <= i < e ==> all[i] == if i < f then headers[i] else header(hashes[i])
    ensures forall i :: 0 <= i < cache.Length ==>
              cache[i] == if update && f <= i < e then TrueEntry(hashes[i], header) else old(cache[i])
  {
    e, all := f, headers;
    while e < |hashes| && hashes[e] in available
      invariant f <= e <= |hashes| && |all| == e
      invariant forall i :: f <= i < e ==> hashes[i] in available
      invariant forall i :: 0 <= i < e ==> all[i] == if i < f then headers[i] else header(hashes[i])
      invariant forall i :: 0 <= i < cache.Length ==>
                  cache[i] == if update && f <= i < e then TrueEntry(hashes[i], header) else old(cache[i])
    {
      all := all + [header(hashes[e])];
      if update {
        cache[e] := TrueEntry(hashes[e], header);
      }
      e := e + 1;
    }
  }

  lemma ReachIs(hashes: seq<Hash>, f: nat, available: set<Hash>, e: nat)
    requires f <= e <= |hashes| && (forall i :: f <= i < e ==> hashes[i] in available)
    requires e < |hashes| ==> hashes[e] !in available
    ensures Reach(hashes, f, available) == e
  {
  }
}
