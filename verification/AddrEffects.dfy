/**
 * What the operations of the address manager do to one address and leave alone of the others
 * (btcd/addrmgr/addrmanager.go, btcd/addrmgr/knownaddress.go), table by table and over runs.
 */
module AddrEffects {
  import opened AddrBook
  import opened AddrSteps

  // ---------------------------------------------------------------- Good

  /** The entry of an address that Good was called for. */
  ghost predicate IsTriedNow(e: Entry, e': Entry, now: Time) {
    && e'.na == e.na && e'.srcAddr == e.srcAddr
    && e'.lastSuccess == now && e'.lastAttempt == now && e'.attempts == 0
    && e'.tried && e'.refs == 0
  }

  /** Apart from these keys the index says what it said. */
  ghost predicate SameBut(index: map<Key, Entry>, index': map<Key, Entry>, except: set<Key>) {
    index'.Keys == index.Keys && forall j :: j in index && j !in except ==> index'[j] == index[j]
  }

  ghost predicate OtherLists(tried: seq<seq<Key>>, tried': seq<seq<Key>>, t: nat) {
    |tried'| == |tried| && forall s :: 0 <= s < |tried| && s != t ==> tried'[s] == tried[s]
  }

  /** With room in its tried list, a new address leaves every bucket and becomes the last of that list. */
  lemma GoodPromotes(book: Book, k: Key, now: Time, h: Hashing)
    requires Inv(book) && k in book.index && !book.index[k].tried
    requires |book.tried[TriedBucket(h, k)]| < TRIED_BUCKET_SIZE
    ensures var after, t := Good(book, k, now, h), TriedBucket(h, k);
            && SameBut(book.index, after.index, {k}) && IsTriedNow(book.index[k], after.index[k], now)
            && OtherLists(book.tried, after.tried, t) && after.tried[t] == book.tried[t] + [k]
            && |after.buckets| == |book.buckets|
            && (forall b :: 0 <= b < |book.buckets| ==> after.buckets[b] == book.buckets[b] - {k})
            && after.nTried == book.nTried + 1 && after.nNew == book.nNew - 1
  {
    Marked(book, k, now);
    var marked := Put(book, k, Succeeded(book.index[k], now));
    InSomeBucket(marked, k);
    assert Good(book, k, now, h) == Promote(Unbucketed(marked, k), k, TriedBucket(h, k));
  }

  lemma Marked(book: Book, k: Key, now: Time)
    requires Inv(book) && k in book.index
    ensures Inv(Put(book, k, Succeeded(book.index[k], now)))
  {
    PutKeeps(book, k, Succeeded(book.index[k], now), {});
  }

  /** The lowest bucket that holds k. */
  ghost predicate LowestWith(buckets: seq<set<Key>>, k: Key, b: nat) {
    b < |buckets| && k in buckets[b] && forall c :: 0 <= c < b ==> k !in buckets[c]
  }

  /** Where an evicted address goes: its own bucket, or the lowest that held k if that one is full. */
  ghost predicate Home(book: Book, k: Key, e: Entry, h: Hashing, b: nat)
    requires |book.buckets| == NEW_BUCKET_COUNT
  {
    var own := NewBucket(h, e.na.key, e.srcAddr.key);
    if |book.buckets[own] - {k}| < NEW_BUCKET_SIZE then b == own else LowestWith(book.buckets, k, b)
  }

  /** No entry of the list is older than that at place i. */
  ghost predicate OldestAt(index: map<Key, Entry>, list: seq<Key>, i: nat) {
    && i < |list| && (forall j :: 0 <= j < |list| ==> list[j] in index)
    && forall j :: 0 <= j < |list| ==> index[list[i]].na.timestamp <= index[list[j]].na.timestamp
  }

  /** With its list full, it takes the place of the oldest entry, which becomes new again in one bucket. */
  lemma GoodEvicts(book: Book, k: Key, now: Time, h: Hashing) returns (i: nat, b: nat)
    requires Inv(book) && k in book.index && !book.index[k].tried
    requires |book.tried[TriedBucket(h, k)]| >= TRIED_BUCKET_SIZE
    ensures var after, t := Good(book, k, now, h), TriedBucket(h, k);
            && OldestAt(book.index, book.tried[t], i)
            && OtherLists(book.tried, after.tried, t) && after.tried[t] == book.tried[t][i := k]
            && var v := book.tried[t][i];
               && v != k && Home(book, k, book.index[v], h, b)
               && SameBut(book.index, after.index, {k, v}) && IsTriedNow(book.index[k], after.index[k], now)
               && after.index[v] == book.index[v].(tried := false, refs := 1)
               && |after.buckets| == |book.buckets|
               && (forall c :: 0 <= c < |book.buckets| ==>
                     after.buckets[c] == book.buckets[c] - {k} + if c == b then {v} else {})
               && after.nTried == book.nTried && after.nNew == book.nNew
  {
    i, b := GoodReplaces(book, k, now, h);
    Replaced(book, k, now, TriedBucket(h, k), i, b);
  }

  /** Which place is taken, and which bucket the evicted address gets. */
  lemma GoodReplaces(book: Book, k: Key, now: Time, h: Hashing) returns (i: nat, b: nat)
    requires Inv(book) && k in book.index && !book.index[k].tried
    requires |book.tried[TriedBucket(h, k)]| >= TRIED_BUCKET_SIZE
    ensures var t := TriedBucket(h, k);
            && OldestAt(book.index, book.tried[t], i) && book.tried[t][i] != k
            && Home(book, k, book.index[book.tried[t][i]], h, b) && b < |book.buckets|
            && Good(book, k, now, h) == Replace(Unbucketed(Put(book, k, Succeeded(book.index[k], now)), k), k, t, i, b)
  {
    var t := TriedBucket(h, k);
    Marked(book, k, now);
    var marked := Put(book, k, Succeeded(book.index[k], now));
    InSomeBucket(marked, k);
    TriedListIndexed(marked, t);
    i := PickTried(marked.index, marked.tried[t]);
    TriedIsNotNew(book, k, t);
    assert InTried(book.tried, t, i) && marked.index[book.tried[t][i]] == book.index[book.tried[t][i]];
    b := ReturnBucket(h, Without(book.buckets, k), book.index[book.tried[t][i]], FirstBucket(book.buckets, k));
    FirstIsLowest(book.buckets, k);
  }

  lemma Replaced(book: Book, k: Key, now: Time, t: nat, i: nat, b: nat)
    requires Inv(book) && k in book.index && !book.index[k].tried && t < |book.tried| && b < |book.buckets|
    requires OldestAt(book.index, book.tried[t], i) && book.tried[t][i] != k
    ensures var v := book.tried[t][i];
            var after := Replace(Unbucketed(Put(book, k, Succeeded(book.index[k], now)), k), k, t, i, b);
            && OtherLists(book.tried, after.tried, t) && after.tried[t] == book.tried[t][i := k]
            && SameBut(book.index, after.index, {k, v}) && IsTriedNow(book.index[k], after.index[k], now)
            && after.index[v] == book.index[v].(tried := false, refs := 1)
            && |after.buckets| == |book.buckets|
            && (forall c :: 0 <= c < |book.buckets| ==>
                  after.buckets[c] == book.buckets[c] - {k} + if c == b then {v} else {})
            && after.nTried == book.nTried && after.nNew == book.nNew
  {
    TriedIsNotNew(book, k, t);
    assert InTried(book.tried, t, i);
  }

  lemma TriedIsNotNew(book: Book, k: Key, t: nat)
    requires Inv(book) && k in book.index && !book.index[k].tried && t < |book.tried|
    ensures forall j :: 0 <= j < |book.tried[t]| ==>
              book.tried[t][j] in book.index && book.tried[t][j] != k && book.index[book.tried[t][j]].refs == 0
  {
    forall j | 0 <= j < |book.tried[t]|
      ensures book.tried[t][j] in book.index && book.tried[t][j] != k && book.index[book.tried[t][j]].refs == 0
    {
      assert InTried(book.tried, t, j);
    }
  }

  lemma FirstIsLowest(buckets: seq<set<Key>>, k: Key)
    requires FirstBucket(buckets, k) >= 0
    ensures LowestWith(buckets, k, FirstBucket(buckets, k))
  {
    forall c | 0 <= c < FirstBucket(buckets, k)
      ensures k !in buckets[c]
    {
      if k in buckets[c] {
        FirstBelowIsFirst(buckets, k, |buckets|, c);
      }
    }
  }

  /** A tried address is refreshed where it is, and an unknown one changes nothing. */
  lemma GoodOfOthers(book: Book, k: Key, now: Time, h: Hashing)
    requires Inv(book) && (k in book.index ==> book.index[k].tried)
    ensures var after := Good(book, k, now, h);
            && SameBut(book.index, after.index, {k})
            && (k in book.index ==> IsTriedNow(book.index[k], after.index[k], now))
            && after.buckets == book.buckets && after.tried == book.tried
            && after.nNew == book.nNew && after.nTried == book.nTried
  {
  }

  /** Whatever was done to it, it is filed elsewhere at most. */
  ghost predicate Refiled(e: Entry, e': Entry) {
    e' == e.(tried := e'.tried, refs := e'.refs)
  }

  /** In each case: no address is forgotten, and but for the one called good none has another history. */
  lemma GoodEntries(book: Book, k: Key, now: Time, h: Hashing, j: Key)
    requires Inv(book) && j in book.index
    ensures var after := Good(book, k, now, h);
            && after.index.Keys == book.index.Keys
            && if j == k then IsTriedNow(book.index[j], after.index[j], now) else Refiled(book.index[j], after.index[j])
  {
    if k in book.index && !book.index[k].tried {
      if |book.tried[TriedBucket(h, k)]| < TRIED_BUCKET_SIZE {
        GoodPromotes(book, k, now, h);
      } else {
        var i, b := GoodEvicts(book, k, now, h);
      }
    } else {
      GoodOfOthers(book, k, now, h);
    }
  }

  // ---------------------------------------------------------------- AddAddress

  /** Whether bucket b gains the address. */
  predicate Gains(book: Book, k: Key, lucky: bool, b: nat)
    requires b < |book.buckets|
  {
    k !in book.buckets[b] &&
    (k in book.index ==> !book.index[k].tried && book.index[k].refs < NEW_BUCKETS_PER_ADDRESS && lucky)
  }

  /** Whom expiry takes out of bucket b: all the bad, and of the others one that none is older than, if there is any. */
  ghost predicate Leave(book: Book, b: nat, now: Time, gone: set<Key>)
    requires b < |book.buckets|
  {
    && gone <= book.buckets[b]
    && (forall j :: j in book.buckets[b] && j in book.index && IsBad(book.index[j], now) ==> j in gone)
    && (gone == book.buckets[b] || exists v :: LeavesThough(book, b, now, gone, v))
    && forall u, v :: LeavesThough(book, b, now, gone, u) && LeavesThough(book, b, now, gone, v) ==> u == v
  }

  /** v leaves although it is not bad, and no other such entry of the bucket is older. */
  ghost predicate LeavesThough(book: Book, b: nat, now: Time, gone: set<Key>, v: Key)
    requires b < |book.buckets|
  {
    && v in gone && v in book.index && !IsBad(book.index[v], now)
    && forall j :: j in book.buckets[b] && j in book.index && !IsBad(book.index[j], now) ==>
         book.index[v].na.timestamp <= book.index[j].na.timestamp
  }

  /** The others: those that leave bucket b have one reference less and are forgotten with their last. */
  ghost predicate OthersAfter(book: Book, after: Book, k: Key, gone: set<Key>) {
    forall j :: j != k ==>
      && (j in after.index <==> j in book.index && !(j in gone && book.index[j].refs == 1))
      && (j in after.index ==>
            after.index[j] == if j in gone then book.index[j].(refs := book.index[j].refs - 1) else book.index[j])
  }

  /** What a routable address leads to: who is in bucket b, who leaves it, and that the rest stays. */
  lemma AddEffect(book: Book, na: NetAddress, src: NetAddress, lucky: bool, b: nat, now: Time, dropped: set<Key>)
    requires Inv(book) && b < |book.buckets|
    requires ReachesExpiry(book, na.key, true, lucky, b) ==> Expirable(Known(book, na, src), b, now, dropped)
    ensures var after := UpdateAddress(book, na, src, true, lucky, b, dropped);
            var gains := Gains(book, na.key, lucky, b);
            var full := gains && |book.buckets[b]| > NEW_BUCKET_SIZE;
            var gone: set<Key> := if full then dropped else {};
            && (full ==> Leave(book, b, now, gone))
            && after.buckets == book.buckets[b := book.buckets[b] - gone + if gains then {na.key} else {}]
            && after.tried == book.tried && after.nTried == book.nTried
            && OthersAfter(book, after, na.key, gone)
  {
    var known := Known(book, na, src);
    KnownElsewhere(book, na, src);
    GainsIs(book, na.key, lucky, b);
    if !Gains(book, na.key, lucky, b) {
      NothingGained(book.buckets, b);
      assert UpdateAddress(book, na, src, true, lucky, b, dropped) == known;
    } else if |book.buckets[b]| > NEW_BUCKET_SIZE {
      ExpirableWithin(known, b, now, dropped);
      ExpiryLeaves(book, known, na.key, b, now, dropped);
      EnteredFull(book, known, na.key, b, dropped);
    } else {
      assert book.buckets[b] - {} == book.buckets[b];
      EnteredRoomy(book, known, na.key, b);
    }
  }

  lemma GainsIs(book: Book, k: Key, lucky: bool, b: nat)
    requires Inv(book) && b < |book.buckets|
    ensures Gains(book, k, lucky, b) <==> WantsBucket(book, k, lucky) && k !in book.buckets[b]
  {
  }

  lemma NothingGained(buckets: seq<set<Key>>, b: nat)
    requires b < |buckets|
    ensures buckets[b := buckets[b] - {} + {}] == buckets
  {
    assert buckets[b] - {} + {} == buckets[b];
  }

  /** The two say the same but of k. */
  ghost predicate Elsewhere(book: Book, known: Book, k: Key) {
    && known.buckets == book.buckets && known.tried == book.tried && known.nTried == book.nTried && k in known.index
    && (forall j :: j != k ==> (j in known.index <==> j in book.index))
    && forall j :: j != k && j in book.index ==> known.index[j] == book.index[j]
  }

  lemma KnownElsewhere(book: Book, na: NetAddress, src: NetAddress)
    ensures Elsewhere(book, Known(book, na, src), na.key)
  {
  }

  lemma EnteredRoomy(book: Book, known: Book, k: Key, b: nat)
    requires b < |book.buckets| && Elsewhere(book, known, k)
    ensures var after := Enter(known, k, b);
            && after.buckets == book.buckets[b := book.buckets[b] + {k}]
            && after.tried == book.tried && after.nTried == book.nTried && OthersAfter(book, after, k, {})
  {
  }

  lemma EnteredFull(book: Book, known: Book, k: Key, b: nat, gone: set<Key>)
    requires b < |book.buckets| && Elsewhere(book, known, k) && k !in gone
    ensures var after := Enter(DropRefs(known, b, gone), k, b);
            && after.buckets == book.buckets[b := book.buckets[b] - gone + {k}]
            && after.tried == book.tried && after.nTried == book.nTried && OthersAfter(book, after, k, gone)
  {
    assert k in DropRefs(known, b, gone).index;
  }

  lemma ExpiryLeaves(book: Book, known: Book, k: Key, b: nat, now: Time, gone: set<Key>)
    requires Inv(book) && b < |book.buckets| && Elsewhere(book, known, k) && k !in book.buckets[b]
    requires Expirable(known, b, now, gone)
    ensures Leave(book, b, now, gone)
  {
    ExpirableWithin(known, b, now, gone);
    forall j | j in book.buckets[b]
      ensures j != k && j in book.index && j in known.index && known.index[j] == book.index[j]
    {
    }
    if gone != book.buckets[b] {
      var v :| IsOldest(known, GoodKeys(known, b, now), v) && gone == BadKeys(known, b, now) + {v};
      assert LeavesThough(book, b, now, gone, v);
    }
  }

  /** The entry: as given the first time, refreshed otherwise, with a reference more if a bucket gained it. */
  lemma AddedEntry(book: Book, na: NetAddress, src: NetAddress, lucky: bool, b: nat, now: Time, dropped: set<Key>)
    requires Inv(book) && b < |book.buckets|
    requires ReachesExpiry(book, na.key, true, lucky, b) ==> Expirable(Known(book, na, src), b, now, dropped)
    ensures var after, k := UpdateAddress(book, na, src, true, lucky, b, dropped), na.key;
            var more := if Gains(book, k, lucky, b) then 1 else 0;
            && k in after.index
            && (k !in book.index ==> after.index[k] == Entry(na, src, 0, 0, 0, false, 1))
            && (k in book.index ==>
                  var e, e' := book.index[k], after.index[k];
                  && e' == e.(na := e'.na, refs := e.refs + more) && e'.na.key == k
                  && e'.na.services == e.na.services + na.services
                  && e'.na.timestamp == if na.timestamp > e.na.timestamp || !(na.services <= e.na.services)
                                        then na.timestamp else e.na.timestamp)
  {
    var known := Known(book, na, src);
    if Gains(book, na.key, lucky, b) && |book.buckets[b]| > NEW_BUCKET_SIZE {
      ExpirableWithin(known, b, now, dropped);
      assert na.key in DropRefs(known, b, dropped).index;
    }
    if na.key in book.index && na.services <= book.index[na.key].na.services {
      assert book.index[na.key].na.services + na.services == book.index[na.key].na.services;
    }
  }

  /** A known address is never seen earlier than before, except when it comes with services that are news. */
  lemma TimestampGoesBack(book: Book, na: NetAddress, src: NetAddress, lucky: bool, b: nat, now: Time,
                          dropped: set<Key>)
    requires Inv(book) && b < |book.buckets| && na.key in book.index
    requires ReachesExpiry(book, na.key, true, lucky, b) ==> Expirable(Known(book, na, src), b, now, dropped)
    ensures var after := UpdateAddress(book, na, src, true, lucky, b, dropped);
            && na.key in after.index
            && (after.index[na.key].na.timestamp < book.index[na.key].na.timestamp <==>
                na.timestamp < book.index[na.key].na.timestamp && !(na.services <= book.index[na.key].na.services))
  {
    AddedEntry(book, na, src, lucky, b, now, dropped);
  }

  // ---------------------------------------------------------------- bad entries

  /** When an entry is bad, by what is known of it. */
  lemma BadExactly(e: Entry, now: Time)
    ensures now - e.lastAttempt < MINUTE ==> !IsBad(e, now)
    ensures now - e.lastAttempt >= MINUTE && (e.na.timestamp - now > 10 * MINUTE || now - e.na.timestamp > 30 * DAY)
            ==> IsBad(e, now)
    ensures now - e.lastAttempt >= MINUTE && -10 * MINUTE <= now - e.na.timestamp <= 30 * DAY ==>
              (IsBad(e, now) <==> if e.lastSuccess == 0 then e.attempts >= 3
                                  else e.attempts >= 10 && now - e.lastSuccess >= 7 * DAY)
  {
  }

  /** Only time and attempts make an entry worse, unless it was bad for a timestamp in the future. */
  lemma BadStaysBad(e: Entry, attempts: int, now: Time, later: Time)
    requires IsBad(e, now) && e.na.timestamp - now <= 10 * MINUTE && attempts >= e.attempts && later >= now
    ensures IsBad(e.(attempts := attempts), later)
  {
  }
}
