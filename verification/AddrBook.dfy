/**
 * The tables of the address manager as values (btcd/addrmgr/addrmanager.go): one index of
 * known addresses, the "new" buckets, the "tried" lists and the two counters.
 *
 * An address key stands for host and port; printing and parsing it are taken to be inverse.
 * Times are nanoseconds, zero being the zero time.  The hash that picks a bucket, routability
 * and randomness are inputs.
 */
module AddrBook {
  type Key = int
  type Time = int
  type Services = set<nat>  // a flag word as the set of its bits

  const NEW_BUCKET_COUNT := 1024
  const NEW_BUCKET_SIZE := 64
  const TRIED_BUCKET_COUNT := 64
  const TRIED_BUCKET_SIZE := 256
  const NEW_BUCKETS_PER_ADDRESS := 8

  const SECOND: Time := 1_000_000_000
  const MINUTE: Time := 60 * SECOND
  const DAY: Time := 24 * 60 * MINUTE

  datatype NetAddress = NetAddress(key: Key, timestamp: Time, services: Services)

  /** KnownAddress; its network address never changes host or port. */
  datatype Entry = Entry(na: NetAddress, srcAddr: NetAddress, attempts: int, lastAttempt: Time, lastSuccess: Time,
                         tried: bool, refs: int)

  datatype Book = Book(index: map<Key, Entry>, buckets: seq<set<Key>>, tried: seq<seq<Key>>, nNew: int, nTried: int)

  /** isBad, with one reading of the clock. */
  predicate IsBad(e: Entry, now: Time) {
    if e.lastAttempt > now - MINUTE then false
    else if e.na.timestamp > now + 10 * MINUTE then true
    else if e.na.timestamp < now - 30 * DAY then true
    else if e.lastSuccess == 0 && e.attempts >= 3 then true
    else !(e.lastSuccess > now - 7 * DAY) && e.attempts >= 10
  }

  // ---------------------------------------------------------------- the invariant

  ghost function BucketsOf(buckets: seq<set<Key>>, k: Key): set<int> {
    set b | 0 <= b < |buckets| && k in buckets[b]
  }

  ghost function NewKeys(index: map<Key, Entry>): set<Key> {
    set k | k in index && !index[k].tried
  }

  ghost function TriedKeys(index: map<Key, Entry>): set<Key> {
    set k | k in index && index[k].tried
  }

  /** The key of place i of tried list t, as a position that quantifiers can hang on. */
  ghost predicate InTried(tried: seq<seq<Key>>, t: int, i: int) {
    0 <= t < |tried| && 0 <= i < |tried[t]|
  }

  ghost predicate Shape(book: Book) {
    && |book.buckets| == NEW_BUCKET_COUNT
    && |book.tried| == TRIED_BUCKET_COUNT
    && (forall k :: k in book.index ==> book.index[k].na.key == k)
  }

  /** New buckets hold new addresses, and refs counts the buckets; a pending address may have none yet. */
  ghost predicate NewOk(book: Book, pending: set<Key>) {
    && (forall b, k :: 0 <= b < |book.buckets| && k in book.buckets[b] ==> k in book.index && !book.index[k].tried)
    && (forall k :: k in book.index && !book.index[k].tried ==>
          && book.index[k].refs == |BucketsOf(book.buckets, k)| <= NEW_BUCKETS_PER_ADDRESS
          && (if k in pending then book.index[k].refs < NEW_BUCKETS_PER_ADDRESS else book.index[k].refs >= 1))
    && (forall b :: 0 <= b < |book.buckets| ==> |book.buckets[b]| <= NEW_BUCKET_SIZE + 1)
  }

  /** Tried lists hold exactly the tried addresses, each in one place. */
  ghost predicate TriedOk(book: Book) {
    && (forall t, i :: InTried(book.tried, t, i) ==>
          book.tried[t][i] in book.index && book.index[book.tried[t][i]].tried)
    && (forall k :: k in book.index && book.index[k].tried ==>
          book.index[k].refs == 0 && exists t, i :: InTried(book.tried, t, i) && book.tried[t][i] == k)
    && (forall t, i, t', i' ::
          (InTried(book.tried, t, i) && InTried(book.tried, t', i') && book.tried[t][i] == book.tried[t'][i']) ==>
          t == t' && i == i')
    && (forall t :: 0 <= t < |book.tried| ==> |book.tried[t]| <= TRIED_BUCKET_SIZE)
  }

  ghost predicate CountsOk(book: Book) {
    book.nNew == |NewKeys(book.index)| && book.nTried == |TriedKeys(book.index)|
  }

  ghost predicate InvWith(book: Book, pending: set<Key>) {
    Shape(book) && NewOk(book, pending) && TriedOk(book) && CountsOk(book)
  }

  /** Everything the tables promise about each other. */
  ghost predicate Inv(book: Book) {
    InvWith(book, {})
  }

  function Empty(): Book {
    Book(map[], seq(NEW_BUCKET_COUNT, _ => {}), seq(TRIED_BUCKET_COUNT, _ => []), 0, 0)
  }

  lemma EmptyInv()
    ensures Inv(Empty())
  {
    assert NewKeys(map[]) == {} && TriedKeys(map[]) == {};
  }

  // ---------------------------------------------------------------- entries changed in place

  /** A change that keeps the key, the tried flag and the reference count. */
  ghost predicate SameStanding(e: Entry, e': Entry) {
    e'.na.key == e.na.key && e'.tried == e.tried && e'.refs == e.refs
  }

  function Put(book: Book, k: Key, e: Entry): Book {
    book.(index := book.index[k := e])
  }

  lemma PutKeeps(book: Book, k: Key, e: Entry, pending: set<Key>)
    requires InvWith(book, pending) && k in book.index && SameStanding(book.index[k], e)
    ensures InvWith(Put(book, k, e), pending)
  {
    var after := Put(book, k, e);
    assert NewKeys(after.index) == NewKeys(book.index);
    assert TriedKeys(after.index) == TriedKeys(book.index);
  }

  // ---------------------------------------------------------------- dropping references

  /** The index after one reference of every key in s is dropped. */
  function DropFromIndex(index: map<Key, Entry>, s: set<Key>): map<Key, Entry> {
    map k | k in index && !(k in s && index[k].refs == 1) ::
      if k in s then index[k].(refs := index[k].refs - 1) else index[k]
  }

  function Gone(index: map<Key, Entry>, s: set<Key>): set<Key> {
    set k | k in s && k in index && index[k].refs == 1
  }

  /** The keys of s leave bucket b; those whose last reference it was leave the index. */
  function DropRefs(book: Book, b: nat, s: set<Key>): Book
    requires b < |book.buckets|
  {
    Book(DropFromIndex(book.index, s), book.buckets[b := book.buckets[b] - s], book.tried,
         book.nNew - |Gone(book.index, s)|, book.nTried)
  }

  lemma BucketsAfterDrop(buckets: seq<set<Key>>, b: nat, s: set<Key>, k: Key)
    requires b < |buckets| && s <= buckets[b]
    ensures BucketsOf(buckets[b := buckets[b] - s], k) ==
            if k in s then BucketsOf(buckets, k) - {b} else BucketsOf(buckets, k)
    ensures k in s ==> |BucketsOf(buckets[b := buckets[b] - s], k)| == |BucketsOf(buckets, k)| - 1
  {
    var buckets' := buckets[b := buckets[b] - s];
    assert BucketsOf(buckets', k) == if k in s then BucketsOf(buckets, k) - {b} else BucketsOf(buckets, k);
    if k in s {
      assert b in BucketsOf(buckets, k);
    }
  }

  lemma DropRefsKeeps(book: Book, b: nat, s: set<Key>, pending: set<Key>)
    requires InvWith(book, pending) && b < |book.buckets| && s <= book.buckets[b] && s !! pending
    ensures InvWith(DropRefs(book, b, s), pending)
    ensures |DropRefs(book, b, s).buckets[b]| == |book.buckets[b]| - |s|
  {
    DropKeepsNew(book, b, s, pending);
    DropKeepsTried(book, b, s, pending);
    DropKeepsCounts(book, b, s, pending);
  }

  lemma DropKeepsTried(book: Book, b: nat, s: set<Key>, pending: set<Key>)
    requires InvWith(book, pending) && b < |book.buckets| && s <= book.buckets[b]
    ensures TriedOk(DropRefs(book, b, s))
  {
    var after := DropRefs(book, b, s);
    forall k | k in book.index && book.index[k].tried
      ensures k in after.index && after.index[k] == book.index[k]
    {
      assert k !in book.buckets[b];
    }
  }

  lemma DropKeepsCounts(book: Book, b: nat, s: set<Key>, pending: set<Key>)
    requires InvWith(book, pending) && b < |book.buckets| && s <= book.buckets[b]
    ensures CountsOk(DropRefs(book, b, s))
  {
    var after := DropRefs(book, b, s);
    forall k | k in s
      ensures k in NewKeys(book.index)
    {
      assert k in book.buckets[b];
    }
    assert NewKeys(after.index) == NewKeys(book.index) - Gone(book.index, s);
    assert Gone(book.index, s) <= NewKeys(book.index);
    assert TriedKeys(after.index) == TriedKeys(book.index);
  }

  lemma DropKeepsNew(book: Book, b: nat, s: set<Key>, pending: set<Key>)
    requires InvWith(book, pending) && b < |book.buckets| && s <= book.buckets[b] && s !! pending
    ensures NewOk(DropRefs(book, b, s), pending)
    ensures |DropRefs(book, b, s).buckets[b]| == |book.buckets[b]| - |s|
  {
    var after := DropRefs(book, b, s);
    forall c, k | 0 <= c < |after.buckets| && k in after.buckets[c]
      ensures k in after.index && !after.index[k].tried
    {
      BucketsAfterDrop(book.buckets, b, s, k);
      assert c in BucketsOf(after.buckets, k);
    }
    forall k | k in after.index && !after.index[k].tried
      ensures after.index[k].refs == |BucketsOf(after.buckets, k)|
    {
      BucketsAfterDrop(book.buckets, b, s, k);
    }
  }

  /** Dropping two disjoint sets one after the other is dropping their union. */
  lemma DropRefsTwice(book: Book, b: nat, s: set<Key>, k: Key)
    requires b < |book.buckets| && k !in s
    ensures DropRefs(DropRefs(book, b, s), b, {k}) == DropRefs(book, b, s + {k})
  {
    var once := DropRefs(book, b, s);
    var twice := DropRefs(once, b, {k});
    var both := DropRefs(book, b, s + {k});
    assert twice.index == both.index;
    assert twice.buckets[b] == both.buckets[b];
    assert Gone(book.index, s + {k}) == Gone(book.index, s) + Gone(once.index, {k});
    assert Gone(book.index, s) !! Gone(once.index, {k});
  }

  /** The bad entries of a bucket. */
  ghost function BadKeys(book: Book, b: nat, now: Time): set<Key>
    requires b < |book.buckets|
  {
    set k | k in book.buckets[b] && k in book.index && IsBad(book.index[k], now)
  }

  /**
   * What expireNew may drop from a bucket: every bad entry and, when some entry is not bad,
   * one of the oldest of those, whether or not bad ones were found.
   */
  ghost predicate Expirable(book: Book, b: nat, now: Time, s: set<Key>)
    requires b < |book.buckets|
  {
    || (s == BadKeys(book, b, now) == book.buckets[b])
    || exists v :: IsOldest(book, GoodKeys(book, b, now), v) && s == BadKeys(book, b, now) + {v}
  }

  ghost function GoodKeys(book: Book, b: nat, now: Time): set<Key>
    requires b < |book.buckets|
  {
    book.buckets[b] - BadKeys(book, b, now)
  }

  ghost predicate IsOldest(book: Book, good: set<Key>, v: Key) {
    && v in good && v in book.index
    && forall k :: k in good && k in book.index ==> book.index[v].na.timestamp <= book.index[k].na.timestamp
  }

  lemma ExpirableWithin(book: Book, b: nat, now: Time, s: set<Key>)
    requires b < |book.buckets| && Expirable(book, b, now, s)
    ensures s <= book.buckets[b]
  {
  }

  lemma ExpirableShrinks(book: Book, b: nat, now: Time, s: set<Key>)
    requires b < |book.buckets| && book.buckets[b] != {} && Expirable(book, b, now, s)
    ensures s <= book.buckets[b] && |s| >= 1
  {
    if s != book.buckets[b] {
      var v :| IsOldest(book, GoodKeys(book, b, now), v) && s == BadKeys(book, b, now) + {v};
      assert v in s;
    }
  }

  // ---------------------------------------------------------------- adding a reference

  /** The end of updateAddress: a full bucket is expired, then the address enters it. */
  function AddRef(book: Book, k: Key, b: nat, dropped: set<Key>): Book
    requires b < |book.buckets| && k in book.index
  {
    if k in book.buckets[b] then book
    else
      var roomy := if |book.buckets[b]| > NEW_BUCKET_SIZE then DropRefs(book, b, dropped) else book;
      Enter(roomy, k, b)
  }

  function Enter(book: Book, k: Key, b: nat): Book
    requires b < |book.buckets|
  {
    if k in book.index
    then Put(book, k, book.index[k].(refs := book.index[k].refs + 1))
         .(buckets := book.buckets[b := book.buckets[b] + {k}])
    else book
  }

  lemma BucketsAfterEnter(buckets: seq<set<Key>>, b: nat, k: Key, j: Key)
    requires b < |buckets| && k !in buckets[b]
    ensures BucketsOf(buckets[b := buckets[b] + {k}], j) ==
            if j == k then BucketsOf(buckets, j) + {b} else BucketsOf(buckets, j)
    ensures j == k ==> |BucketsOf(buckets[b := buckets[b] + {k}], j)| == |BucketsOf(buckets, j)| + 1
  {
    assert BucketsOf(buckets[b := buckets[b] + {k}], j) ==
           if j == k then BucketsOf(buckets, j) + {b} else BucketsOf(buckets, j);
    assert b !in BucketsOf(buckets, k);
  }

  lemma EnterKeeps(book: Book, k: Key, b: nat)
    requires InvWith(book, {k}) && b < |book.buckets| && k in book.index && !book.index[k].tried
    requires k !in book.buckets[b] && |book.buckets[b]| <= NEW_BUCKET_SIZE
    ensures Inv(Enter(book, k, b))
  {
    var after := Enter(book, k, b);
    forall j | j in after.index && !after.index[j].tried
      ensures 1 <= after.index[j].refs == |BucketsOf(after.buckets, j)| <= NEW_BUCKETS_PER_ADDRESS
    {
      BucketsAfterEnter(book.buckets, b, k, j);
    }
    assert NewKeys(after.index) == NewKeys(book.index);
    assert TriedKeys(after.index) == TriedKeys(book.index);
  }

  lemma AddRefKeeps(book: Book, k: Key, b: nat, now: Time, dropped: set<Key>)
    requires InvWith(book, {k}) && b < |book.buckets| && k in book.index && !book.index[k].tried
    requires k !in book.buckets[b]
    requires |book.buckets[b]| > NEW_BUCKET_SIZE ==> Expirable(book, b, now, dropped)
    ensures Inv(AddRef(book, k, b, dropped))
  {
    if |book.buckets[b]| > NEW_BUCKET_SIZE {
      ExpirableShrinks(book, b, now, dropped);
      DropRefsKeeps(book, b, dropped, {k});
      EnterKeeps(DropRefs(book, b, dropped), k, b);
    } else {
      EnterKeeps(book, k, b);
    }
  }
}
