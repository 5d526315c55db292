/**
 * The operations of the address manager on its tables (btcd/addrmgr/addrmanager.go), and the proof
 * that every one of them, and so every run of them, keeps the invariant.
 */
module AddrSteps {
  import opened AddrBook

  // ---------------------------------------------------------------- updateAddress

  /** The refresh of a known address: time and services together, even when only one is news. */
  function Touched(e: Entry, na: NetAddress): Entry {
    if na.timestamp > e.na.timestamp || !(na.services <= e.na.services)
    then e.(na := NetAddress(e.na.key, na.timestamp, e.na.services + na.services))
    else e
  }

  function NewEntry(na: NetAddress, src: NetAddress): Entry {
    Entry(na, src, 0, 0, 0, false, 0)
  }

  /** The tables once the address is in the index, before it is given a bucket. */
  function Known(book: Book, na: NetAddress, src: NetAddress): (r: Book)
    ensures r.buckets == book.buckets && na.key in r.index
  {
    if na.key in book.index then Put(book, na.key, Touched(book.index[na.key], na))
    else Put(book, na.key, NewEntry(na, src)).(nNew := book.nNew + 1)
  }

  /** Whether updateAddress goes on to a bucket; the random draw decides for addresses already known. */
  predicate WantsBucket(book: Book, k: Key, lucky: bool) {
    k in book.index ==> !book.index[k].tried && book.index[k].refs != NEW_BUCKETS_PER_ADDRESS && lucky
  }

  function UpdateAddress(book: Book, na: NetAddress, src: NetAddress, routable: bool, lucky: bool, b: nat,
                         dropped: set<Key>): Book
    requires b < |book.buckets|
  {
    if !routable then book
    else if WantsBucket(book, na.key, lucky) then AddRef(Known(book, na, src), na.key, b, dropped)
    else Known(book, na, src)
  }

  /** updateAddress reaches expireNew exactly then. */
  predicate ReachesExpiry(book: Book, k: Key, routable: bool, lucky: bool, b: nat)
    requires b < |book.buckets|
  {
    routable && WantsBucket(book, k, lucky) && k !in book.buckets[b] && |book.buckets[b]| > NEW_BUCKET_SIZE
  }

  /** A new address below the limit may take one more reference. */
  lemma MayGrow(book: Book, k: Key)
    requires Inv(book) && k in book.index && !book.index[k].tried && book.index[k].refs != NEW_BUCKETS_PER_ADDRESS
    ensures InvWith(book, {k})
  {
  }

  lemma FirstSeen(book: Book, na: NetAddress, src: NetAddress)
    requires Inv(book) && na.key !in book.index
    ensures InvWith(Known(book, na, src), {na.key})
  {
    assert BucketsOf(book.buckets, na.key) == {};
    FirstSeenCounts(book, na, src);
  }

  lemma FirstSeenCounts(book: Book, na: NetAddress, src: NetAddress)
    requires CountsOk(book) && na.key !in book.index
    ensures CountsOk(Known(book, na, src))
  {
    var after := Known(book, na, src);
    assert NewKeys(after.index) == NewKeys(book.index) + {na.key};
    assert TriedKeys(after.index) == TriedKeys(book.index);
  }

  lemma UpdateAddressKeeps(book: Book, na: NetAddress, src: NetAddress, routable: bool, lucky: bool, b: nat,
                           now: Time, dropped: set<Key>)
    requires Inv(book) && b < |book.buckets|
    requires ReachesExpiry(book, na.key, routable, lucky, b) ==> Expirable(Known(book, na, src), b, now, dropped)
    ensures Inv(UpdateAddress(book, na, src, routable, lucky, b, dropped))
  {
    var k := na.key;
    var known := Known(book, na, src);
    if k in book.index {
      PutKeeps(book, k, Touched(book.index[k], na), {});
    }
    if routable && WantsBucket(book, k, lucky) && k !in known.buckets[b] {
      if k in book.index {
        MayGrow(known, k);
      } else {
        FirstSeen(book, na, src);
      }
      AddRefKeeps(known, k, b, now, dropped);
    }
  }

  // ---------------------------------------------------------------- Good

  /** The place of the first of the oldest entries of a tried list, as pickTried finds it. */
  function PickTried(index: map<Key, Entry>, list: seq<Key>): (i: nat)
    requires list != [] && forall j :: 0 <= j < |list| ==> list[j] in index
    ensures i < |list|
    ensures forall j :: 0 <= j < |list| ==> index[list[i]].na.timestamp <= index[list[j]].na.timestamp
    ensures forall j :: 0 <= j < i ==> index[list[i]].na.timestamp < index[list[j]].na.timestamp
  {
    if |list| == 1 then 0
    else
      var last := |list| - 1;
      var i := PickTried(index, list[..last]);
      if index[list[i]].na.timestamp > index[list[last]].na.timestamp then last else i
  }

  function Succeeded(e: Entry, now: Time): Entry {
    e.(lastSuccess := now, lastAttempt := now, attempts := 0)
  }

  /** Every new bucket without k. */
  function Without(buckets: seq<set<Key>>, k: Key): (r: seq<set<Key>>)
    ensures |r| == |buckets| && forall b :: 0 <= b < |buckets| ==> r[b] == buckets[b] - {k}
  {
    seq(|buckets|, b requires 0 <= b < |buckets| => buckets[b] - {k})
  }

  /** The first of the first n buckets that holds k, or -1. */
  function FirstBelow(buckets: seq<set<Key>>, k: Key, n: nat): (r: int)
    requires n <= |buckets|
    ensures -1 <= r < n && (r >= 0 ==> k in buckets[r])
  {
    if n == 0 then -1
    else
      var f := FirstBelow(buckets, k, n - 1);
      if f == -1 && k in buckets[n - 1] then n - 1 else f
  }

  /** The first bucket that holds k, or -1. */
  function FirstBucket(buckets: seq<set<Key>>, k: Key): int {
    FirstBelow(buckets, k, |buckets|)
  }

  lemma {:induction false} FirstBelowIsFirst(buckets: seq<set<Key>>, k: Key, n: nat, b: nat)
    requires b < n <= |buckets| && k in buckets[b]
    ensures 0 <= FirstBelow(buckets, k, n) <= b
  {
    if b < n - 1 {
      FirstBelowIsFirst(buckets, k, n - 1, b);
    }
  }

  /** k leaves every new bucket. */
  function Unbucketed(book: Book, k: Key): Book
    requires k in book.index
  {
    Put(book, k, book.index[k].(refs := 0)).(buckets := Without(book.buckets, k), nNew := book.nNew - 1)
  }

  /** k enters tried list t at its end. */
  function Promote(book: Book, k: Key, t: nat): Book
    requires k in book.index && t < |book.tried|
  {
    Put(book, k, book.index[k].(tried := true))
    .(tried := book.tried[t := book.tried[t] + [k]], nTried := book.nTried + 1)
  }

  /** k takes place i of the full list t; the address it evicts goes back to new bucket b. */
  function Replace(book: Book, k: Key, t: nat, i: nat, b: nat): Book
    requires k in book.index && InTried(book.tried, t, i) && b < |book.buckets|
    requires book.tried[t][i] in book.index && book.tried[t][i] != k
  {
    var rm := book.tried[t][i];
    var e := book.index[rm];
    Book(book.index[k := book.index[k].(tried := true)][rm := e.(tried := false, refs := e.refs + 1)],
         book.buckets[b := book.buckets[b] + {rm}],
         book.tried[t := book.tried[t][i := k]],
         book.nNew + 1, book.nTried)
  }

  /** getNewBucket and getTriedBucket: some hash of the addresses, reduced to the number of buckets. */
  datatype Hashing = Hashing(newHash: (Key, Key) -> nat, triedHash: Key -> nat)

  function NewBucket(h: Hashing, addr: Key, src: Key): (b: nat)
    ensures b < NEW_BUCKET_COUNT
  {
    h.newHash(addr, src) % NEW_BUCKET_COUNT
  }

  function TriedBucket(h: Hashing, addr: Key): (t: nat)
    ensures t < TRIED_BUCKET_COUNT
  {
    h.triedHash(addr) % TRIED_BUCKET_COUNT
  }

  /** The bucket for an evicted address: its own if there is room, else the one just freed. */
  function ReturnBucket(h: Hashing, buckets: seq<set<Key>>, e: Entry, freed: nat): (b: nat)
    requires |buckets| == NEW_BUCKET_COUNT && freed < NEW_BUCKET_COUNT
    ensures b < NEW_BUCKET_COUNT
  {
    var b := NewBucket(h, e.na.key, e.srcAddr.key);
    if |buckets[b]| >= NEW_BUCKET_SIZE then freed else b
  }

  function MoveToTried(book: Book, k: Key, h: Hashing): Book
    requires Inv(book) && k in book.index && !book.index[k].tried
  {
    InSomeBucket(book, k);
    var first := FirstBucket(book.buckets, k);
    var loose := Unbucketed(book, k);
    var t := TriedBucket(h, k);
    if |book.tried[t]| < TRIED_BUCKET_SIZE then Promote(loose, k, t)
    else
      TriedListIndexed(book, t);
      var i := PickTried(book.index, book.tried[t]);
      assert InTried(book.tried, t, i);
      var b := ReturnBucket(h, loose.buckets, book.index[book.tried[t][i]], first);
      Replace(loose, k, t, i, b)
  }

  function Good(book: Book, k: Key, now: Time, h: Hashing): Book
    requires Inv(book)
  {
    if k !in book.index then book
    else
      PutKeeps(book, k, Succeeded(book.index[k], now), {});
      var b := Put(book, k, Succeeded(book.index[k], now));
      if b.index[k].tried then b else MoveToTried(b, k, h)
  }

  /** The "wasn't in a bucket after all" branch of Good cannot be taken. */
  lemma InSomeBucket(book: Book, k: Key)
    requires Inv(book) && k in book.index && !book.index[k].tried
    ensures FirstBucket(book.buckets, k) >= 0
  {
    var bs := BucketsOf(book.buckets, k);
    assert bs != {} by {
      assert |bs| >= 1;
    }
    var b :| b in bs;
    FirstBelowIsFirst(book.buckets, k, |book.buckets|, b);
  }

  lemma TriedListIndexed(book: Book, t: nat)
    requires Inv(book) && t < |book.tried|
    ensures forall j :: 0 <= j < |book.tried[t]| ==> book.tried[t][j] in book.index
  {
    forall j | 0 <= j < |book.tried[t]|
      ensures book.tried[t][j] in book.index
    {
      assert InTried(book.tried, t, j);
    }
  }

  /** The tables while k is in neither class: all but k is in order. */
  ghost predicate Between(book: Book, k: Key) {
    && Shape(book) && k in book.index && !book.index[k].tried && book.index[k].refs == 0
    && (forall b :: 0 <= b < |book.buckets| ==> k !in book.buckets[b])
    && (forall b, j :: 0 <= b < |book.buckets| && j in book.buckets[b] ==> j in book.index && !book.index[j].tried)
    && (forall j :: j in book.index && !book.index[j].tried && j != k ==>
          1 <= book.index[j].refs == |BucketsOf(book.buckets, j)| <= NEW_BUCKETS_PER_ADDRESS)
    && (forall b :: 0 <= b < |book.buckets| ==> |book.buckets[b]| <= NEW_BUCKET_SIZE + 1)
    && TriedOk(book)
    && book.nNew == |NewKeys(book.index)| - 1 && book.nTried == |TriedKeys(book.index)|
  }

  lemma UnbucketedBetween(book: Book, k: Key)
    requires Inv(book) && k in book.index && !book.index[k].tried
    ensures Between(Unbucketed(book, k), k)
    ensures forall b :: 0 <= b < |book.buckets| && k in book.buckets[b] ==>
              |Unbucketed(book, k).buckets[b]| <= NEW_BUCKET_SIZE
  {
    var after := Unbucketed(book, k);
    forall j | j in book.index && j != k
      ensures BucketsOf(after.buckets, j) == BucketsOf(book.buckets, j)
    {
      assert BucketsOf(after.buckets, j) == BucketsOf(book.buckets, j);
    }
    assert NewKeys(after.index) == NewKeys(book.index);
    assert TriedKeys(after.index) == TriedKeys(book.index);
  }

  lemma PromoteKeeps(book: Book, k: Key, t: nat)
    requires Between(book, k) && t < |book.tried| && |book.tried[t]| < TRIED_BUCKET_SIZE
    ensures Inv(Promote(book, k, t))
  {
    var after := Promote(book, k, t);
    assert NewKeys(after.index) == NewKeys(book.index) - {k};
    assert TriedKeys(after.index) == TriedKeys(book.index) + {k};
    PromoteTried(book, k, t);
  }

  lemma PromoteTried(book: Book, k: Key, t: nat)
    requires Between(book, k) && t < |book.tried| && |book.tried[t]| < TRIED_BUCKET_SIZE
    ensures TriedOk(Promote(book, k, t))
  {
    var after := Promote(book, k, t);
    var n := |book.tried[t]|;
    forall s, i | InTried(after.tried, s, i)
      ensures InTried(book.tried, s, i) || (s == t && i == n)
      ensures after.tried[s][i] == if s == t && i == n then k else book.tried[s][i]
      ensures after.tried[s][i] in after.index && after.index[after.tried[s][i]].tried
    {
      assert InTried(book.tried, s, i) || (s == t && i == n);
    }
    forall j | j in after.index && after.index[j].tried
      ensures exists s, i :: InTried(after.tried, s, i) && after.tried[s][i] == j
    {
      if j == k {
        assert InTried(after.tried, t, n);
      } else {
        var s, i :| InTried(book.tried, s, i) && book.tried[s][i] == j;
        assert InTried(after.tried, s, i);
      }
    }
  }

  lemma ReplaceKeeps(book: Book, k: Key, t: nat, i: nat, b: nat)
    requires Between(book, k) && InTried(book.tried, t, i) && b < |book.buckets|
    requires |book.buckets[b]| <= NEW_BUCKET_SIZE
    ensures book.tried[t][i] in book.index && book.tried[t][i] != k
    ensures Inv(Replace(book, k, t, i, b))
  {
    ReplaceNew(book, k, t, i, b);
    ReplaceTried(book, k, t, i, b);
    ReplaceCounts(book, k, t, i, b);
  }

  lemma ReplaceCounts(book: Book, k: Key, t: nat, i: nat, b: nat)
    requires Between(book, k) && InTried(book.tried, t, i) && b < |book.buckets|
    requires book.tried[t][i] in book.index && book.tried[t][i] != k
    ensures CountsOk(Replace(book, k, t, i, b))
  {
    SwapCounts(book.index, Replace(book, k, t, i, b).index, k, book.tried[t][i]);
  }

  /** One address becomes tried and another new: as many of each as before. */
  lemma SwapCounts(index: map<Key, Entry>, after: map<Key, Entry>, k: Key, rm: Key)
    requires k in index && rm in index && !index[k].tried && index[rm].tried && after.Keys == index.Keys
    requires forall j :: j in index ==>
          after[j].tried == if j == k then true else if j == rm then false else index[j].tried
    ensures |NewKeys(after)| == |NewKeys(index)| && |TriedKeys(after)| == |TriedKeys(index)|
  {
    assert NewKeys(after) == NewKeys(index) - {k} + {rm};
    assert TriedKeys(after) == TriedKeys(index) - {rm} + {k};
  }

  lemma ReplaceNew(book: Book, k: Key, t: nat, i: nat, b: nat)
    requires Between(book, k) && InTried(book.tried, t, i) && b < |book.buckets|
    requires |book.buckets[b]| <= NEW_BUCKET_SIZE
    ensures book.tried[t][i] in book.index && book.tried[t][i] != k
    ensures NewOk(Replace(book, k, t, i, b), {})
  {
    var rm := book.tried[t][i];
    var after := Replace(book, k, t, i, b);
    assert rm !in book.buckets[b];
    assert BucketsOf(book.buckets, rm) == {};
    forall j | j in after.index && !after.index[j].tried
      ensures 1 <= after.index[j].refs == |BucketsOf(after.buckets, j)| <= NEW_BUCKETS_PER_ADDRESS
    {
      BucketsAfterEnter(book.buckets, b, rm, j);
    }
  }

  lemma ReplaceTried(book: Book, k: Key, t: nat, i: nat, b: nat)
    requires Between(book, k) && InTried(book.tried, t, i) && b < |book.buckets|
    ensures book.tried[t][i] in book.index && book.tried[t][i] != k
    ensures TriedOk(Replace(book, k, t, i, b))
  {
    var rm := book.tried[t][i];
    var after := Replace(book, k, t, i, b);
    forall s, j | InTried(after.tried, s, j)
      ensures InTried(book.tried, s, j)
      ensures after.tried[s][j] == if s == t && j == i then k else book.tried[s][j]
      ensures after.tried[s][j] in after.index && after.index[after.tried[s][j]].tried
    {
      assert InTried(book.tried, s, j);
    }
    forall a | a in after.index && after.index[a].tried
      ensures exists s, j :: InTried(after.tried, s, j) && after.tried[s][j] == a
    {
      if a == k {
        assert InTried(after.tried, t, i);
      } else {
        var s, j :| InTried(book.tried, s, j) && book.tried[s][j] == a;
        assert InTried(after.tried, s, j);
      }
    }
  }

  lemma MoveToTriedKeeps(book: Book, k: Key, h: Hashing)
    requires Inv(book) && k in book.index && !book.index[k].tried
    ensures Inv(MoveToTried(book, k, h))
  {
    InSomeBucket(book, k);
    UnbucketedBetween(book, k);
    var loose := Unbucketed(book, k);
    var t := TriedBucket(h, k);
    if |book.tried[t]| < TRIED_BUCKET_SIZE {
      PromoteKeeps(loose, k, t);
    } else {
      TriedListIndexed(book, t);
      var i := PickTried(book.index, book.tried[t]);
      assert InTried(loose.tried, t, i);
      ReplaceKeeps(loose, k, t, i,
                   ReturnBucket(h, loose.buckets, book.index[book.tried[t][i]], FirstBucket(book.buckets, k)));
    }
  }

  lemma GoodKeeps(book: Book, k: Key, now: Time, h: Hashing)
    requires Inv(book)
    ensures Inv(Good(book, k, now, h))
  {
    if k in book.index {
      PutKeeps(book, k, Succeeded(book.index[k], now), {});
      var b := Put(book, k, Succeeded(book.index[k], now));
      if !b.index[k].tried {
        MoveToTriedKeeps(b, k, h);
      }
    }
  }

  // ---------------------------------------------------------------- the remaining operations

  function Attempted(e: Entry, now: Time): Entry {
    e.(attempts := e.attempts + 1, lastAttempt := now)
  }

  function Attempt(book: Book, k: Key, now: Time): Book {
    if k in book.index then Put(book, k, Attempted(book.index[k], now)) else book
  }

  function Seen(e: Entry, now: Time): Entry {
    if now > e.na.timestamp + 20 * MINUTE then e.(na := e.na.(timestamp := now)) else e
  }

  function Connected(book: Book, k: Key, now: Time): Book {
    if k in book.index then Put(book, k, Seen(book.index[k], now)) else book
  }

  function SetServices(book: Book, k: Key, services: Services): Book {
    if k in book.index then Put(book, k, book.index[k].(na := book.index[k].na.(services := services))) else book
  }

  // ---------------------------------------------------------------- runs

  /** One public call, with every outcome of clock, hash and random draw that it may meet. */
  datatype Op =
    | OpAdd(na: NetAddress, src: NetAddress, routable: bool, lucky: bool, bucket: nat, now: Time, dropped: set<Key>)
    | OpAttempt(key: Key, now: Time)
    | OpConnected(key: Key, now: Time)
    | OpGood(key: Key, now: Time, hashing: Hashing)
    | OpSetServices(key: Key, services: Services)

  ghost predicate Possible(book: Book, op: Op) {
    op.OpAdd? ==>
      && op.bucket < |book.buckets|
      && (ReachesExpiry(book, op.na.key, op.routable, op.lucky, op.bucket) ==>
            Expirable(Known(book, op.na, op.src), op.bucket, op.now, op.dropped))
  }

  ghost function Step(book: Book, op: Op): Book
    requires Inv(book) && Possible(book, op)
  {
    match op
    case OpAdd(na, src, routable, lucky, bucket, _, dropped) =>
          UpdateAddress(book, na, src, routable, lucky, bucket, dropped)
    case OpAttempt(k, now) => Attempt(book, k, now)
    case OpConnected(k, now) => Connected(book, k, now)
    case OpGood(k, now, hashing) => Good(book, k, now, hashing)
    case OpSetServices(k, services) => SetServices(book, k, services)
  }

  lemma StepKeeps(book: Book, op: Op)
    requires Inv(book) && Possible(book, op)
    ensures Inv(Step(book, op))
  {
    match op
    case OpAdd(na, src, routable, lucky, bucket, now, dropped) =>
      UpdateAddressKeeps(book, na, src, routable, lucky, bucket, now, dropped);
    case OpAttempt(k, now) =>
      if k in book.index { PutKeeps(book, k, Attempted(book.index[k], now), {}); }
    case OpConnected(k, now) =>
      if k in book.index { PutKeeps(book, k, Seen(book.index[k], now), {}); }
    case OpGood(k, now, hashing) =>
      GoodKeeps(book, k, now, hashing);
    case OpSetServices(k, services) =>
      if k in book.index { PutKeeps(book, k, book.index[k].(na := book.index[k].na.(services := services)), {}); }
  }

  /** books is a run of the manager from New: every state follows from the one before by some call. */
  ghost predicate IsRun(books: seq<Book>, ops: seq<Op>) {
    && |books| == |ops| + 1 && books[0] == Empty()
    && forall i :: 0 <= i < |ops| ==> Follows(books[i], ops[i], books[i + 1])
  }

  ghost predicate Follows(book: Book, op: Op, next: Book) {
    Inv(book) ==> Possible(book, op) && next == Step(book, op)
  }

  /** Over every run the tables, the reference counts and the counters agree. */
  lemma {:induction false} RunKeepsInv(books: seq<Book>, ops: seq<Op>, n: nat)
    requires IsRun(books, ops) && n < |books|
    ensures Inv(books[n])
  {
    if n == 0 {
      EmptyInv();
    } else {
      RunKeepsInv(books, ops, n - 1);
      assert Follows(books[n - 1], ops[n - 1], books[n]);
      StepKeeps(books[n - 1], ops[n - 1]);
    }
  }

  // ---------------------------------------------------------------- the limit of a bucket is reached

  function NthAddress(n: nat): NetAddress {
    NetAddress(n, 0, {})
  }

  /** The tables after n addresses that all hash to bucket 0. */
  ghost function Crowded(n: nat): (r: Book)
    ensures |r.buckets| == NEW_BUCKET_COUNT
  {
    if n == 0 then Empty() else UpdateAddress(Crowded(n - 1), NthAddress(n), NthAddress(0), true, true, 0, {})
  }

  lemma {:induction false} CrowdedIs(n: nat)
    requires n <= NEW_BUCKET_SIZE + 1
    ensures |Crowded(n).buckets[0]| == n
    ensures forall k :: k in Crowded(n).index || k in Crowded(n).buckets[0] ==> k <= n
  {
    if n > 0 {
      CrowdedIs(n - 1);
      var book := Crowded(n - 1);
      assert n !in book.index && n !in book.buckets[0];
      assert Crowded(n).buckets[0] == book.buckets[0] + {n};
    }
  }

  /** 65 is not just a bound: adding that many addresses of one bucket fills it so far. */
  lemma SixtyFiveAreReached() returns (books: seq<Book>, ops: seq<Op>)
    ensures IsRun(books, ops) && |books[|ops|].buckets| > 0 && |books[|ops|].buckets[0]| == 65
  {
    books := seq(66, i requires 0 <= i < 66 => Crowded(i));
    ops := seq(65, i requires 0 <= i < 65 => OpAdd(NthAddress(i + 1), NthAddress(0), true, true, 0, 0, {}));
    forall i | 0 <= i < 65
      ensures Follows(books[i], ops[i], books[i + 1])
    {
      CrowdedIs(i);
    }
    CrowdedIs(65);
  }
}
