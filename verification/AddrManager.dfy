/**
 * The address manager on the heap (btcd/addrmgr/addrmanager.go, btcd/addrmgr/knownaddress.go).
 * Known addresses are objects shared by the index, the new buckets and the tried lists; every
 * public call is proved to do to these tables what AddrSteps says.
 */
module AddrManagers {
  import opened Options
  import opened AddrBook
  import opened AddrSteps
  import opened Iteration

  class KnownAddress {
    // na: the host and port never change, the rest is replaced by a fresh copy.
    const addr: Key
    var timestamp: Time
    var services: Services
    const srcAddr: NetAddress
    var attempts: int
    var lastAttempt: Time
    var lastSuccess: Time
    var tried: bool
    var refs: int

    constructor (na: NetAddress, src: NetAddress)
      ensures Value() == NewEntry(na, src) && addr == na.key
    {
      addr, timestamp, services, srcAddr := na.key, na.timestamp, na.services, src;
      attempts, lastAttempt, lastSuccess, tried, refs := 0, 0, 0, false, 0;
    }

    /** An entry read back from a file. */
    constructor Load(e: Entry)
      ensures Value() == e.(tried := false, refs := 0) && addr == e.na.key
    {
      addr, timestamp, services, srcAddr := e.na.key, e.na.timestamp, e.na.services, e.srcAddr;
      attempts, lastAttempt, lastSuccess, tried, refs := e.attempts, e.lastAttempt, e.lastSuccess, false, 0;
    }

    function Value(): Entry
      reads this
    {
      Entry(NetAddress(addr, timestamp, services), srcAddr, attempts, lastAttempt, lastSuccess, tried, refs)
    }
  }

  /** Random numbers: any value below n, which must be positive. */
  method Int31n(n: int) returns (r: int)
    requires n > 0
    ensures 0 <= r < n
  {
    r :| 0 <= r < n;
  }

  ghost function BucketKeys(addrNew: seq<map<Key, KnownAddress>>): (r: seq<set<Key>>)
    ensures |r| == |addrNew| && forall b :: 0 <= b < |r| ==> r[b] == addrNew[b].Keys
  {
    seq(|addrNew|, b requires 0 <= b < |addrNew| => addrNew[b].Keys)
  }

  lemma BucketKeysUpdate(addrNew: seq<map<Key, KnownAddress>>, b: nat, k: Key, ka: KnownAddress)
    requires b < |addrNew|
    ensures BucketKeys(addrNew[b := addrNew[b] - {k}]) == BucketKeys(addrNew)[b := BucketKeys(addrNew)[b] - {k}]
    ensures BucketKeys(addrNew[b := addrNew[b][k := ka]]) == BucketKeys(addrNew)[b := BucketKeys(addrNew)[b] + {k}]
  {
    assert (addrNew[b] - {k}).Keys == addrNew[b].Keys - {k};
    assert addrNew[b][k := ka].Keys == addrNew[b].Keys + {k};
  }

  ghost function ListKeys(list: seq<KnownAddress>): (r: seq<Key>)
    ensures |r| == |list| && forall i :: 0 <= i < |r| ==> r[i] == list[i].addr
  {
    seq(|list|, i requires 0 <= i < |list| => list[i].addr)
  }

  ghost function TriedLists(addrTried: seq<seq<KnownAddress>>): (r: seq<seq<Key>>)
    ensures |r| == |addrTried| && forall t :: 0 <= t < |r| ==> r[t] == ListKeys(addrTried[t])
  {
    seq(|addrTried|, t requires 0 <= t < |addrTried| => ListKeys(addrTried[t]))
  }

  ghost predicate Tables(index: map<Key, KnownAddress>, addrNew: seq<map<Key, KnownAddress>>,
                         tried: seq<seq<KnownAddress>>) {
    && (forall k :: k in index ==> index[k].addr == k)
    && (forall b, k :: 0 <= b < |addrNew| && k in addrNew[b] ==> k in index && addrNew[b][k] == index[k])
    && (forall t, i :: 0 <= t < |tried| && 0 <= i < |tried[t]| ==>
          tried[t][i].addr in index && index[tried[t][i].addr] == tried[t][i])
  }

  lemma TablesDrop(index: map<Key, KnownAddress>, addrNew: seq<map<Key, KnownAddress>>, tried: seq<seq<KnownAddress>>,
                   b: nat, k: Key)
    requires Tables(index, addrNew, tried) && b < |addrNew|
    ensures Tables(index, addrNew[b := addrNew[b] - {k}], tried)
  {
  }

  lemma TablesForget(index: map<Key, KnownAddress>, addrNew: seq<map<Key, KnownAddress>>,
                     tried: seq<seq<KnownAddress>>, k: Key)
    requires Tables(index, addrNew, tried)
    requires forall b :: 0 <= b < |addrNew| ==> k !in addrNew[b]
    requires forall t, i :: 0 <= t < |tried| && 0 <= i < |tried[t]| ==> tried[t][i].addr != k
    ensures Tables(index - {k}, addrNew, tried)
  {
  }

  lemma TablesJoin(index: map<Key, KnownAddress>, addrNew: seq<map<Key, KnownAddress>>, tried: seq<seq<KnownAddress>>,
                   b: nat, k: Key)
    requires Tables(index, addrNew, tried) && b < |addrNew| && k in index
    ensures Tables(index, addrNew[b := addrNew[b][k := index[k]]], tried)
  {
  }

  class AddrManager {
    var addrIndex: map<Key, KnownAddress>
    var addrNew: seq<map<Key, KnownAddress>>
    var addrTried: seq<seq<KnownAddress>>
    var nNew: int
    var nTried: int

    /** Buckets and lists point at the very objects that the index files under their keys. */
    ghost predicate Linked()
      reads this
    {
      Tables(addrIndex, addrNew, addrTried)
    }

    ghost function Objects(): set<KnownAddress>
      reads this
    {
      addrIndex.Values
    }

    ghost function Index(): (m: map<Key, Entry>)
      reads this, addrIndex.Values
      ensures m.Keys == addrIndex.Keys
      ensures forall k :: k in addrIndex ==> m[k] == addrIndex[k].Value()
    {
      map k | k in addrIndex :: addrIndex[k].Value()
    }

    /** The tables as values. */
    ghost function Abs(): (book: Book)
      reads this, addrIndex.Values
      ensures book.index == Index()
    {
      Book(Index(), BucketKeys(addrNew), TriedLists(addrTried), nNew, nTried)
    }

    /** New */
    constructor ()
      ensures Linked() && Abs() == Empty()
    {
      addrIndex := map[];
      addrNew := seq(NEW_BUCKET_COUNT, _ => map[]);
      addrTried := seq(TRIED_BUCKET_COUNT, _ => []);
      nNew, nTried := 0, 0;
      new;
      assert forall b :: 0 <= b < NEW_BUCKET_COUNT ==> addrNew[b] == map[] && Abs().buckets[b] == {};
      assert Abs().buckets == Empty().buckets;
      assert forall t :: 0 <= t < TRIED_BUCKET_COUNT ==> Abs().tried[t] == [];
      assert Abs().tried == Empty().tried;
      assert Abs().index == Empty().index;
    }

    /** Only the object filed under k changed. */
    twostate lemma OneChanged(k: Key)
      requires Linked() && addrIndex == old(addrIndex) && k in addrIndex
      requires forall j :: j in addrIndex && j != k ==> unchanged(addrIndex[j])
      ensures Index() == old(Index())[k := addrIndex[k].Value()]
    {
      forall j | j in addrIndex
        ensures Index()[j] == if j == k then addrIndex[k].Value() else old(Index())[j]
      {
      }
    }

    /** Only k left the index. */
    twostate lemma OneRemoved(k: Key)
      requires Linked() && addrIndex == old(addrIndex) - {k}
      requires forall j :: j in addrIndex ==> unchanged(addrIndex[j])
      ensures Index() == old(Index()) - {k}
    {
      forall j | j in addrIndex
        ensures Index()[j] == old(Index())[j]
      {
      }
    }

    /** Attempt */
    method Attempt(k: Key, now: Time)
      requires Linked()
      modifies Objects()
      ensures Linked() && Abs() == AddrSteps.Attempt(old(Abs()), k, now)
    {
      if k in addrIndex {
        var ka := addrIndex[k];
        ka.attempts := ka.attempts + 1;
        ka.lastAttempt := now;
        OneChanged(k);
      }
    }

    /** Connected */
    method Connected(k: Key, now: Time)
      requires Linked()
      modifies Objects()
      ensures Linked() && Abs() == AddrSteps.Connected(old(Abs()), k, now)
    {
      if k in addrIndex {
        var ka := addrIndex[k];
        if now > ka.timestamp + 20 * MINUTE {
          ka.timestamp := now;
        }
        OneChanged(k);
      }
    }

    /** SetServices */
    method SetServices(k: Key, services: Services)
      requires Linked()
      modifies Objects()
      ensures Linked() && Abs() == AddrSteps.SetServices(old(Abs()), k, services)
    {
      if k in addrIndex {
        var ka := addrIndex[k];
        if ka.services != services {
          ka.services := services;
        }
        OneChanged(k);
      }
    }

    // -------------------------------------------------------------- updateAddress

    /** AddAddress; the draw and what expired are reported for the specification. */
    method AddAddress(na: NetAddress, src: NetAddress, routable: bool, hashing: Hashing, now: Time)
      returns (ghost op: Op)
      requires Linked() && Inv(Abs())
      modifies this, Objects()
      ensures Linked() && Inv(Abs()) && fresh(Objects() - old(Objects()))
      ensures op.OpAdd? && op.na == na && op.src == src && op.routable == routable && op.now == now
      ensures op.bucket == NewBucket(hashing, na.key, src.key)
      ensures Possible(old(Abs()), op) && Abs() == Step(old(Abs()), op)
    {
      ghost var before := Abs();
      ghost var lucky, dropped := UpdateAddress(na, src, routable, hashing, now);
      ghost var b := NewBucket(hashing, na.key, src.key);
      op := OpAdd(na, src, routable, lucky, b, now, dropped);
      StepKeeps(before, op);
    }

    /** updateAddress */
    method UpdateAddress(na: NetAddress, src: NetAddress, routable: bool, hashing: Hashing, now: Time)
      returns (ghost lucky: bool, ghost dropped: set<Key>)
      requires Linked() && Inv(Abs())
      modifies this, Objects()
      ensures Linked() && fresh(Objects() - old(Objects()))
      ensures var b := NewBucket(hashing, na.key, src.key);
        && (ReachesExpiry(old(Abs()), na.key, routable, lucky, b) ==>
              Expirable(Known(old(Abs()), na, src), b, now, dropped))
        && Abs() == AddrSteps.UpdateAddress(old(Abs()), na, src, routable, lucky, b, dropped)
    {
      lucky, dropped := false, {};
      if !routable {
        return;
      }
      var wants; ghost var roll;
      wants, lucky, roll := Admit(na, src);
      if !wants {
        return;
      }
      var b := NewBucket(hashing, na.key, src.key);
      if na.key in addrNew[b] {
        return;
      }
      dropped := EnterBucket(na.key, b, now, Abs());
    }

    /** The first half of updateAddress: refresh or file the address, and decide whether it gets a bucket. */
    method Admit(na: NetAddress, src: NetAddress) returns (wants: bool, ghost lucky: bool, ghost roll: int)
      requires Linked() && Inv(Abs())
      modifies this, Objects()
      ensures Linked() && fresh(Objects() - old(Objects())) && addrNew == old(addrNew)
      ensures Abs() == Known(old(Abs()), na, src)
      ensures wants == WantsBucket(old(Abs()), na.key, lucky)
      ensures na.key in old(addrIndex) && WantsBucket(old(Abs()), na.key, true) ==>
                0 <= roll < 2 * old(addrIndex[na.key].refs) && (lucky <==> roll == 0)
      ensures wants ==> InvWith(Abs(), {na.key})
    {
      ghost var before := Abs();
      if na.key !in addrIndex {
        Insert(na, src);
        FirstSeen(before, na, src);
        return true, true, 0;
      }
      Refresh(na);
      var ka := addrIndex[na.key];
      assert ka.Value() == Touched(before.index[na.key], na);
      if ka.tried {
        return false, false, 0;
      }
      if ka.refs == NEW_BUCKETS_PER_ADDRESS {
        return false, false, 0;
      }
      HasReference(before, na.key);
      var r := Int31n(2 * ka.refs);
      if r != 0 {
        return false, false, r;
      }
      RefreshedMayGrow(before, na, src);
      return true, true, r;
    }

    /** The refresh of an address already known. */
    method Refresh(na: NetAddress)
      requires Linked() && na.key in addrIndex
      modifies addrIndex[na.key]
      ensures Linked()
      ensures Abs() == Put(old(Abs()), na.key, Touched(old(Abs()).index[na.key], na))
    {
      var ka := addrIndex[na.key];
      if na.timestamp > ka.timestamp || !(na.services <= ka.services) {
        ka.timestamp := na.timestamp;
        ka.services := ka.services + na.services;
      }
      OneChanged(na.key);
    }

    method Insert(na: NetAddress, src: NetAddress)
      requires Linked() && na.key !in addrIndex
      modifies this
      ensures addrNew == old(addrNew)
      ensures Linked() && fresh(Objects() - old(Objects()))
      ensures Abs() == Known(old(Abs()), na, src)
    {
      var ka := new KnownAddress(na, src);
      addrIndex := addrIndex[na.key := ka];
      nNew := nNew + 1;
      assert Abs().index == old(Abs()).index[na.key := NewEntry(na, src)];
    }

    /** The end of updateAddress: make room in the bucket if needed and add the address to it. */
    method EnterBucket(k: Key, b: nat, now: Time, ghost before: Book) returns (ghost dropped: set<Key>)
      requires Linked() && Abs() == before && InvWith(before, {k})
      requires k in addrIndex && b < |addrNew| && k !in addrNew[b]
      modifies this, Objects()
      ensures Linked() && Objects() <= old(Objects())
      ensures |before.buckets[b]| > NEW_BUCKET_SIZE ==> Expirable(before, b, now, dropped)
      ensures Abs() == AddRef(before, k, b, dropped)
    {
      dropped := {};
      if |addrNew[b]| > NEW_BUCKET_SIZE {
        dropped := ExpireNew(b, now, k, before);
        PendingSurvives(before, b, now, k, dropped);
      }
      Join(k, b);
    }

    method Join(k: Key, b: nat)
      requires Linked() && k in addrIndex && b < |addrNew|
      modifies this, addrIndex[k]
      ensures Linked() && addrIndex == old(addrIndex)
      ensures Abs() == Enter(old(Abs()), k, b)
    {
      var ka := addrIndex[k];
      ka.refs := ka.refs + 1;
      TablesJoin(addrIndex, addrNew, addrTried, b, k);
      BucketKeysUpdate(addrNew, b, k, ka);
      addrNew := addrNew[b := addrNew[b][k := ka]];
      OneChanged(k);
    }

    // -------------------------------------------------------------- expireNew

    /** One address leaves a bucket, and the index with its last reference. */
    method DropOne(b: nat, k: Key)
      requires Linked() && b < |addrNew| && k in addrNew[b]
      requires forall t, i :: 0 <= t < |addrTried| && 0 <= i < |addrTried[t]| ==> addrTried[t][i].addr != k
      requires addrIndex[k].refs == 1 ==> forall c :: 0 <= c < |addrNew| && c != b ==> k !in addrNew[c]
      modifies this, addrIndex[k]
      ensures Linked() && Objects() <= old(Objects())
      ensures Abs() == DropRefs(old(Abs()), b, {k})
      ensures addrIndex == old(addrIndex) || addrIndex == old(addrIndex) - {k}
    {
      ghost var before := Abs();
      var v := addrIndex[k];
      TablesDrop(addrIndex, addrNew, addrTried, b, k);
      BucketKeysUpdate(addrNew, b, k, v);
      DropOneKey(before, b, k);
      addrNew := addrNew[b := addrNew[b] - {k}];
      v.refs := v.refs - 1;
      if v.refs == 0 {
        TablesForget(addrIndex, addrNew, addrTried, k);
        nNew := nNew - 1;
        addrIndex := addrIndex - {k};
        OneRemoved(k);
      } else {
        OneChanged(k);
      }
    }

    /** What the tables say about an address of a bucket, in terms of objects. */
    lemma BucketMember(b: nat, k: Key, pending: Key)
      requires Linked() && InvWith(Abs(), {pending}) && b < |addrNew| && k in addrNew[b] && k != pending
      ensures !addrIndex[k].tried && addrIndex[k].refs >= 1
      ensures forall t, i :: 0 <= t < |addrTried| && 0 <= i < |addrTried[t]| ==> addrTried[t][i].addr != k
      ensures addrIndex[k].refs == 1 ==> forall c :: 0 <= c < |addrNew| && c != b ==> k !in addrNew[c]
    {
      var book := Abs();
      assert k in book.buckets[b];
      assert book.index[k] == addrIndex[k].Value();
      forall t, i | 0 <= t < |addrTried| && 0 <= i < |addrTried[t]|
        ensures addrTried[t][i].addr != k
      {
        assert InTried(book.tried, t, i);
        assert book.tried[t][i] == addrTried[t][i].addr;
      }
      if addrIndex[k].refs == 1 {
        OnlyBucket(book.buckets, k, b);
      }
    }

    /** expireNew: every bad entry and the oldest good one leave the bucket. */
    method ExpireNew(b: nat, now: Time, ghost pending: Key, ghost before: Book) returns (ghost dropped: set<Key>)
      requires Linked() && Abs() == before && b < |addrNew| && InvWith(before, {pending}) && pending !in addrNew[b]
      modifies this, Objects()
      ensures Linked() && Objects() <= old(Objects())
      ensures Expirable(before, b, now, dropped)
      ensures Abs() == DropRefs(before, b, dropped)
    {
      var oldest: KnownAddress?;
      oldest, dropped := ExpireBad(b, now, pending, before);
      if oldest != null {
        ghost var k := oldest.addr;
        DropRefsKeeps(before, b, dropped, {pending});
        BucketMember(b, k, pending);
        DropOne(b, oldest.addr);
        DropRefsTwice(before, b, dropped, k);
        dropped := dropped + {k};
      }
    }

    /** The loop of expireNew, which drops the bad entries and finds the oldest of the others. */
    method ExpireBad(b: nat, now: Time, ghost pending: Key, ghost before: Book)
      returns (oldest: KnownAddress?, ghost dropped: set<Key>)
      requires Linked() && Abs() == before && b < |addrNew| && InvWith(before, {pending}) && pending !in addrNew[b]
      modifies this, Objects()
      ensures Linked() && Objects() <= old(Objects())
      ensures dropped == BadKeys(before, b, now)
      ensures Abs() == DropRefs(before, b, dropped)
      ensures oldest == null ==> dropped == before.buckets[b]
      ensures oldest != null ==> oldest.addr in addrNew[b] && IsOldest(before, GoodKeys(before, b, now), oldest.addr)
    {
      DropNothing(before, b);
      ghost var scan;
      oldest, scan := ScanAll(b, now, pending, before);
      dropped := scan.dropped;
      ScanDone(before, b, now, scan);
    }

    method ScanAll(b: nat, now: Time, ghost pending: Key, ghost before: Book)
      returns (oldest: KnownAddress?, ghost scan: Scan)
      requires InvWith(before, {pending}) && b < |addrNew| && pending !in addrNew[b]
      requires Abs() == before && Scanning(b, now, null, pending, before, Scan(addrNew[b].Keys, {}, None))
      modifies this, Objects()
      ensures Scanning(b, now, oldest, pending, before, scan) && scan.rest == {}
      ensures Objects() <= old(Objects())
    {
      oldest, scan := ScanRest(b, addrNew[b].Keys, now, pending, before);
    }

    /** The loop over the keys of a bucket. */
    method ScanRest(b: nat, keys: set<Key>, now: Time, ghost pending: Key, ghost before: Book)
      returns (oldest: KnownAddress?, ghost scan: Scan)
      requires InvWith(before, {pending}) && b < |before.buckets| && pending !in before.buckets[b]
      requires Scanning(b, now, null, pending, before, Scan(keys, {}, None))
      modifies this, Objects()
      ensures Scanning(b, now, oldest, pending, before, scan) && scan.rest == {}
      ensures Objects() <= old(Objects())
    {
      var rest := keys;
      oldest, scan := null, Scan(rest, {}, None);
      while rest != {}
        invariant Scanning(b, now, oldest, pending, before, scan) == true && scan.rest == rest
        invariant Objects() <= old(Objects())
        decreases |rest|
      {
        var k := Pick(rest);
        oldest, scan := ScanOne(b, k, now, oldest, pending, before, scan);
        rest := rest - {k};
      }
    }

    /** The state of the loop. */
    ghost predicate Scanning(b: nat, now: Time, oldest: KnownAddress?, pending: Key, before: Book, scan: Scan)
      reads this, addrIndex.Values
    {
      && Linked() && ScanOk(before, b, now, scan)
      && Abs() == DropRefs(before, b, scan.dropped)
      && Points(scan, oldest)
    }

    /** The object and the key found so far agree. */
    ghost predicate Points(scan: Scan, oldest: KnownAddress?)
      reads this
    {
      if oldest == null then scan.oldest == None
      else scan.oldest == Some(oldest.addr) && oldest.addr in addrIndex && addrIndex[oldest.addr] == oldest
    }

    /** One iteration of the loop. */
    method ScanOne(b: nat, k: Key, now: Time, oldest: KnownAddress?, ghost pending: Key, ghost before: Book,
                   ghost scan: Scan)
      returns (oldest': KnownAddress?, ghost scan': Scan)
      requires InvWith(before, {pending}) && b < |before.buckets| && pending !in before.buckets[b]
      requires Scanning(b, now, oldest, pending, before, scan) && k in scan.rest
      modifies this, Objects()
      ensures Scanning(b, now, oldest', pending, before, scan') && scan'.rest == scan.rest - {k}
      ensures Objects() <= old(Objects())
    {
      BucketEntry(before, b, pending, k);
      ghost var bad := IsBad(before.index[k], now);
      ScanStep(before, b, now, scan, k);
      scan' := Advance(before, scan, k, bad);
      if oldest != null {
        assert oldest.Value() == Index()[oldest.addr] == before.index[oldest.addr];
      }
      var v, isBad := ExpireIfBad(b, k, now, pending, before, scan.dropped);
      oldest' := oldest;
      if !isBad && (oldest == null || !(v.timestamp > oldest.timestamp)) {
        oldest' := v;
      }
    }

    /** A bad address is dropped, and nothing else changes but its reference count. */
    method ExpireIfBad(b: nat, k: Key, now: Time, ghost pending: Key, ghost before: Book, ghost dropped: set<Key>)
      returns (v: KnownAddress, bad: bool)
      requires Linked() && InvWith(before, {pending}) && b < |before.buckets| && pending !in before.buckets[b]
      requires dropped <= before.buckets[b] && k in before.buckets[b] && k !in dropped && k in before.index
      requires Abs() == DropRefs(before, b, dropped)
      modifies this, Objects()
      ensures Linked() && Objects() <= old(Objects())
      ensures bad == IsBad(before.index[k], now)
      ensures Abs() == DropRefs(before, b, if bad then dropped + {k} else dropped)
      ensures v.addr == k
      ensures !bad ==> v.timestamp == before.index[k].na.timestamp && k in addrIndex && addrIndex[k] == v
      ensures forall j :: j in addrIndex ==> j in old(addrIndex) && addrIndex[j] == old(addrIndex[j])
      ensures forall j :: j in old(addrIndex) && j != k ==> j in addrIndex
    {
      DropRefsKeeps(before, b, dropped, {pending});
      assert k in Abs().buckets[b];
      v := addrNew[b][k];
      assert v.Value() == Index()[k] == before.index[k];
      bad := IsBad(v.Value(), now);
      if bad {
        BucketMember(b, k, pending);
        DropOne(b, k);
        DropRefsTwice(before, b, dropped, k);
      }
    }

    // -------------------------------------------------------------- Good

    /** Good */
    method Good(k: Key, now: Time, hashing: Hashing)
      requires Linked() && Inv(Abs())
      modifies this, Objects()
      ensures Linked() && Inv(Abs()) && Objects() == old(Objects())
      ensures Abs() == AddrSteps.Good(old(Abs()), k, now, hashing)
    {
      ghost var before := Abs();
      MarkGood(k, now, hashing, before);
      GoodKeeps(before, k, now, hashing);
    }

    method MarkGood(k: Key, now: Time, hashing: Hashing, ghost before: Book)
      requires Linked() && Abs() == before && Inv(before)
      modifies this, Objects()
      ensures Linked() && addrIndex == old(addrIndex)
      ensures Abs() == AddrSteps.Good(before, k, now, hashing)
    {
      if k !in addrIndex {
        return;
      }
      ghost var marked := Put(before, k, Succeeded(before.index[k], now));
      PutKeeps(before, k, Succeeded(before.index[k], now), {});
      MarkSuccess(k, now);
      if addrIndex[k].tried {
        return;
      }
      MoveToTried(k, hashing, marked);
    }

    method MarkSuccess(k: Key, now: Time)
      requires Linked() && k in addrIndex
      modifies addrIndex[k]
      ensures Linked() && Abs() == Put(old(Abs()), k, Succeeded(old(Abs()).index[k], now))
      ensures addrIndex[k].tried == old(addrIndex[k].tried)
    {
      var ka := addrIndex[k];
      ka.lastSuccess := now;
      ka.lastAttempt := now;
      ka.attempts := 0;
      OneChanged(k);
    }

    /** The move of a new address to the tried lists; it was in some bucket. */
    method MoveToTried(k: Key, hashing: Hashing, ghost before: Book)
      requires Linked() && Abs() == before && Inv(before) && k in before.index && !before.index[k].tried
      modifies this, Objects()
      ensures Linked() && addrIndex == old(addrIndex)
      ensures Abs() == AddrSteps.MoveToTried(before, k, hashing)
    {
      InSomeBucket(before, k);
      var oldBucket := LeaveNew(addrIndex[k], before);
      assert oldBucket != -1;
      var t := TriedBucket(hashing, k);
      if |addrTried[t]| < TRIED_BUCKET_SIZE {
        JoinTried(k, t);
      } else {
        Evict(k, t, oldBucket, hashing, before);
      }
    }

    /** No room in the tried list: its oldest entry makes way. */
    method Evict(k: Key, t: nat, oldBucket: nat, hashing: Hashing, ghost before: Book)
      requires Inv(before) && k in before.index && !before.index[k].tried
      requires Linked() && Abs() == Unbucketed(before, k)
      requires t == TriedBucket(hashing, k) && |before.tried[t]| >= TRIED_BUCKET_SIZE
      requires oldBucket == FirstBucket(before.buckets, k)
      modifies this, Objects()
      ensures Linked() && addrIndex == old(addrIndex)
      ensures Abs() == AddrSteps.MoveToTried(before, k, hashing)
    {
      ghost var loose := Unbucketed(before, k);
      TriedListIndexed(before, t);
      var i := PickTriedIn(t, before, loose, k);
      EvictedOther(before, k, t, i);
      var rmka := addrTried[t][i];
      assert rmka.Value() == before.index[before.tried[t][i]] by {
        assert Index()[rmka.addr] == rmka.Value();
      }
      var newBucket := NewBucket(hashing, rmka.addr, rmka.srcAddr.key);
      if |addrNew[newBucket]| >= NEW_BUCKET_SIZE {
        newBucket := oldBucket;
      }
      TakePlace(k, t, i, newBucket, loose);
    }

    /** The loop that takes k out of every new bucket and remembers the first. */
    method LeaveNew(ka: KnownAddress, ghost before: Book) returns (oldBucket: int)
      requires Linked() && Abs() == before && ka.addr in addrIndex && addrIndex[ka.addr] == ka
      requires before.index[ka.addr].refs == |BucketsOf(before.buckets, ka.addr)|
      modifies this`addrNew, this`nNew, ka`refs
      ensures Linked()
      ensures Abs() == Unbucketed(before, ka.addr)
      ensures oldBucket == FirstBucket(before.buckets, ka.addr)
    {
      oldBucket := LeaveAll(ka, before);
      PartwayEnd(before, ka.addr);
      ghost var index := Index();
      nNew := nNew - 1;
      assert Index() == index;
    }

    method LeaveAll(ka: KnownAddress, ghost before: Book) returns (oldBucket: int)
      requires Leaving(ka, before, 0, -1) && |addrNew| == |before.buckets|
      modifies this`addrNew, ka`refs
      ensures Leaving(ka, before, |before.buckets|, oldBucket) == true
    {
      oldBucket := -1;
      var i, n := 0, |addrNew|;
      while i < n
        invariant i <= n && Leaving(ka, before, i, oldBucket) == true
      {
        oldBucket := LeaveIfIn(ka, i, oldBucket, before);
        i := i + 1;
      }
    }

    /** The state of the loop after the first i buckets. */
    ghost predicate Leaving(ka: KnownAddress, before: Book, i: nat, oldBucket: int)
      reads this, addrIndex.Values
    {
      && Linked() && ka.addr in addrIndex && addrIndex[ka.addr] == ka
      && ka.addr in before.index && i <= |before.buckets|
      && Abs() == Partway(before, ka.addr, i)
      && oldBucket == FirstBelow(before.buckets, ka.addr, i)
    }

    /** One iteration of the loop. */
    method LeaveIfIn(ka: KnownAddress, i: nat, oldBucket: int, ghost before: Book) returns (r: int)
      requires Leaving(ka, before, i, oldBucket) && i < |before.buckets|
      modifies this`addrNew, ka`refs
      ensures Leaving(ka, before, i + 1, r)
    {
      NextBucket(before, ka.addr, i);
      r := oldBucket;
      if ka.addr in addrNew[i] {
        LeaveOne(ka, i);
        if oldBucket == -1 {
          r := i;
        }
      }
    }

    method LeaveOne(ka: KnownAddress, i: nat)
      requires Linked() && ka.addr in addrIndex && addrIndex[ka.addr] == ka && i < |addrNew|
      modifies this`addrNew, ka`refs
      ensures Linked()
      ensures Abs() == LeaveStep(old(Abs()), ka.addr, i)
    {
      var k := ka.addr;
      TablesDrop(addrIndex, addrNew, addrTried, i, k);
      BucketKeysUpdate(addrNew, i, k, ka);
      addrNew := addrNew[i := addrNew[i] - {k}];
      ka.refs := ka.refs - 1;
      OneChanged(k);
    }

    method JoinTried(k: Key, t: nat)
      requires Linked() && k in addrIndex && t < |addrTried|
      modifies this, addrIndex[k]
      ensures Linked() && addrIndex == old(addrIndex)
      ensures Abs() == Promote(old(Abs()), k, t)
    {
      var ka := addrIndex[k];
      TriedListsAppend(addrTried, t, ka);
      ka.tried := true;
      addrTried := addrTried[t := addrTried[t] + [ka]];
      nTried := nTried + 1;
      OneChanged(k);
    }

    /** pickTried */
    method PickTriedIn(t: nat, ghost before: Book, ghost loose: Book, ghost k: Key) returns (r: nat)
      requires Linked() && Abs() == loose && t < |addrTried| && addrTried[t] != []
      requires k in before.index && loose == Unbucketed(before, k)
      requires forall j :: 0 <= j < |before.tried[t]| ==> before.tried[t][j] in before.index
      ensures r < |addrTried[t]| && r == PickTried(before.index, before.tried[t])
    {
      var list := addrTried[t];
      ghost var keys := before.tried[t];
      assert keys == ListKeys(list);
      forall j | 0 <= j < |list|
        ensures list[j].addr == keys[j] && list[j].timestamp == before.index[keys[j]].na.timestamp
      {
        assert Index()[keys[j]] == list[j].Value();
      }
      r := OldestPlace(list, keys, before.index);
    }

    /** ka replaces an old entry in its place, and the old entry goes back to a new bucket. */
    method TakePlace(k: Key, t: nat, i: nat, b: nat, ghost before: Book)
      requires Linked() && Abs() == before && k in before.index && InTried(before.tried, t, i) && b < |addrNew|
      requires before.tried[t][i] in before.index && before.tried[t][i] != k
      modifies this, Objects()
      ensures Linked() && addrIndex == old(addrIndex)
      ensures Abs() == Replace(before, k, t, i, b)
    {
      var rmka := addrTried[t][i];
      assert rmka.addr == before.tried[t][i];
      Seat(k, t, i);
      Demote(rmka.addr, b);
    }

    /** k enters a tried list in place of the entry that was there. */
    method Seat(k: Key, t: nat, i: nat)
      requires Linked() && k in addrIndex && t < |addrTried| && i < |addrTried[t]|
      modifies this, addrIndex[k]
      ensures Linked() && addrIndex == old(addrIndex) && addrNew == old(addrNew)
      ensures Abs() == Put(old(Abs()), k, old(Abs()).index[k].(tried := true))
                       .(tried := old(Abs()).tried[t := old(Abs()).tried[t][i := k]])
    {
      var ka := addrIndex[k];
      TriedListsReplace(addrTried, t, i, ka);
      ka.tried := true;
      addrTried := addrTried[t := addrTried[t][i := ka]];
      OneChanged(k);
    }

    /** A tried address goes back to a new bucket. */
    method Demote(k: Key, b: nat)
      requires Linked() && k in addrIndex && b < |addrNew|
      modifies this, addrIndex[k]
      ensures Linked() && addrIndex == old(addrIndex)
      ensures Abs() == Put(old(Abs()), k, old(Abs()).index[k].(tried := false, refs := old(Abs()).index[k].refs + 1))
                       .(buckets := old(Abs()).buckets[b := old(Abs()).buckets[b] + {k}], nNew := old(Abs()).nNew + 1)
    {
      var ka := addrIndex[k];
      TablesJoin(addrIndex, addrNew, addrTried, b, k);
      BucketKeysUpdate(addrNew, b, k, ka);
      ka.tried := false;
      ka.refs := ka.refs + 1;
      nNew := nNew + 1;
      addrNew := addrNew[b := addrNew[b][k := ka]];
      OneChanged(k);
    }
  }

  // ---------------------------------------------------------------- taking an address out of the buckets

  ghost function LeaveStep(book: Book, k: Key, i: nat): Book
    requires k in book.index && i < |book.buckets|
  {
    Put(book, k, book.index[k].(refs := book.index[k].refs - 1)).(buckets := book.buckets[i := book.buckets[i] - {k}])
  }

  /** The loop of pickTried: the first of the oldest entries. */
  method OldestPlace(list: seq<KnownAddress>, ghost keys: seq<Key>, ghost index: map<Key, Entry>) returns (r: nat)
    requires |list| == |keys| > 0 && forall j :: 0 <= j < |keys| ==> keys[j] in index
    requires forall j :: 0 <= j < |list| ==> list[j].timestamp == index[keys[j]].na.timestamp
    ensures r < |list| && r == PickTried(index, keys)
  {
    r := 0;
    var i := 1;
    assert keys[..1] == [keys[0]];
    while i < |list|
      invariant 1 <= i <= |list| && r < i
      invariant r == PickTried(index, keys[..i])
    {
      assert keys[..i + 1][..i] == keys[..i];
      if list[r].timestamp > list[i].timestamp {
        r := i;
      }
      i := i + 1;
    }
    assert keys[..i] == keys;
  }

  /** The tables after the first n buckets have been visited. */
  ghost function Partway(book: Book, k: Key, n: nat): (r: Book)
    requires k in book.index && n <= |book.buckets|
    ensures k in r.index && |r.buckets| == |book.buckets|
  {
    if n == 0 then book
    else if k in book.buckets[n - 1] then LeaveStep(Partway(book, k, n - 1), k, n - 1)
    else Partway(book, k, n - 1)
  }

  ghost function BucketsBelow(buckets: seq<set<Key>>, k: Key, n: nat): set<int>
    requires n <= |buckets|
  {
    set b | 0 <= b < n && k in buckets[b]
  }

  lemma BucketsBelowStep(buckets: seq<set<Key>>, k: Key, n: nat)
    requires n < |buckets|
    ensures |BucketsBelow(buckets, k, n + 1)| == |BucketsBelow(buckets, k, n)| + if k in buckets[n] then 1 else 0
  {
    var below := BucketsBelow(buckets, k, n);
    assert n !in below;
    assert BucketsBelow(buckets, k, n + 1) == if k in buckets[n] then below + {n} else below;
  }

  /** In closed form: the buckets below n are without k, and refs has lost one for each that held it. */
  lemma {:induction false} PartwayIs(book: Book, k: Key, n: nat)
    requires k in book.index && n <= |book.buckets|
    ensures var r := Partway(book, k, n);
      && r.index == book.index[k := book.index[k].(refs := book.index[k].refs - |BucketsBelow(book.buckets, k, n)|)]
      && r.tried == book.tried && r.nNew == book.nNew && r.nTried == book.nTried
      && forall b :: 0 <= b < |book.buckets| ==>
            r.buckets[b] == if b < n then book.buckets[b] - {k} else book.buckets[b]
  {
    if n == 0 {
      assert BucketsBelow(book.buckets, k, 0) == {};
      assert book.index[k := book.index[k]] == book.index;
    } else {
      PartwayIs(book, k, n - 1);
      BucketsBelowStep(book.buckets, k, n - 1);
    }
  }

  lemma PartwayEnd(book: Book, k: Key)
    requires k in book.index && book.index[k].refs == |BucketsOf(book.buckets, k)|
    ensures Partway(book, k, |book.buckets|).(nNew := book.nNew - 1) == Unbucketed(book, k)
  {
    PartwayIs(book, k, |book.buckets|);
    AllBuckets(book.buckets, k);
    SameBuckets(Partway(book, k, |book.buckets|).buckets, Without(book.buckets, k));
  }

  lemma AllBuckets(buckets: seq<set<Key>>, k: Key)
    ensures BucketsBelow(buckets, k, |buckets|) == BucketsOf(buckets, k)
  {
  }

  lemma SameBuckets(a: seq<set<Key>>, b: seq<set<Key>>)
    requires |a| == |b| && forall i :: 0 <= i < |a| ==> a[i] == b[i]
    ensures a == b
  {
  }

  /** Bucket i is still as it was when the loop reaches it. */
  lemma NextBucket(book: Book, k: Key, i: nat)
    requires k in book.index && i < |book.buckets|
    ensures Partway(book, k, i).buckets[i] == book.buckets[i]
  {
    PartwayIs(book, k, i);
  }

  lemma EvictedOther(book: Book, k: Key, t: nat, i: nat)
    requires Inv(book) && k in book.index && !book.index[k].tried && t < |book.tried| && i < |book.tried[t]|
    ensures InTried(book.tried, t, i) && book.tried[t][i] in book.index && book.tried[t][i] != k
  {
  }

  lemma TriedListsAppend(tried: seq<seq<KnownAddress>>, t: nat, ka: KnownAddress)
    requires t < |tried|
    ensures TriedLists(tried[t := tried[t] + [ka]]) == TriedLists(tried)[t := TriedLists(tried)[t] + [ka.addr]]
  {
    assert ListKeys(tried[t] + [ka]) == ListKeys(tried[t]) + [ka.addr];
  }

  lemma TriedListsReplace(tried: seq<seq<KnownAddress>>, t: nat, i: nat, ka: KnownAddress)
    requires t < |tried| && i < |tried[t]|
    ensures TriedLists(tried[t := tried[t][i := ka]]) == TriedLists(tried)[t := TriedLists(tried)[t][i := ka.addr]]
  {
    assert ListKeys(tried[t][i := ka]) == ListKeys(tried[t])[i := ka.addr];
  }

  // ---------------------------------------------------------------- the scan of a bucket

  /** How far the loop of expireNew has come. */
  datatype Scan = Scan(rest: set<Key>, dropped: set<Key>, oldest: Option<Key>)

  ghost predicate ScanOk(book: Book, b: nat, now: Time, s: Scan) {
    && b < |book.buckets|
    && s.rest <= book.buckets[b]
    && s.dropped == BadKeys(book, b, now) - s.rest
    && (s.oldest == None ==> forall k :: k in book.buckets[b] ==> k in s.rest || k in s.dropped)
    && (s.oldest.Some? ==> IsOldest(book, book.buckets[b] - s.rest - s.dropped, s.oldest.value))
  }

  ghost function Advance(book: Book, s: Scan, k: Key, bad: bool): Scan
    requires k in book.index && (s.oldest.Some? ==> s.oldest.value in book.index)
  {
    if bad then Scan(s.rest - {k}, s.dropped + {k}, s.oldest)
    else if s.oldest.None? || !(book.index[k].na.timestamp > book.index[s.oldest.value].na.timestamp)
    then Scan(s.rest - {k}, s.dropped, Some(k))
    else Scan(s.rest - {k}, s.dropped, s.oldest)
  }

  lemma ScanStep(book: Book, b: nat, now: Time, s: Scan, k: Key)
    requires ScanOk(book, b, now, s) && k in s.rest && k in book.index
    ensures ScanOk(book, b, now, Advance(book, s, k, IsBad(book.index[k], now)))
  {
  }

  lemma ScanDone(book: Book, b: nat, now: Time, s: Scan)
    requires ScanOk(book, b, now, s) && s.rest == {}
    ensures s.dropped == BadKeys(book, b, now)
    ensures s.oldest == None ==> s.dropped == book.buckets[b]
    ensures s.oldest.Some? ==> IsOldest(book, GoodKeys(book, b, now), s.oldest.value)
  {
    assert book.buckets[b] - s.rest - s.dropped == GoodKeys(book, b, now);
    if s.oldest == None {
      forall k | k in book.buckets[b]
        ensures k in s.dropped
      {
        assert k !in s.rest;
      }
    }
  }

  lemma PendingSurvives(book: Book, b: nat, now: Time, k: Key, dropped: set<Key>)
    requires b < |book.buckets| && k in book.index && k !in book.buckets[b] && Expirable(book, b, now, dropped)
    ensures k in DropRefs(book, b, dropped).index
  {
    ExpirableWithin(book, b, now, dropped);
  }

  lemma BucketEntry(book: Book, b: nat, pending: Key, k: Key)
    requires InvWith(book, {pending}) && b < |book.buckets| && k in book.buckets[b]
    ensures k in book.index
  {
  }

  lemma DropOneKey(book: Book, b: nat, k: Key)
    requires b < |book.buckets| && k in book.index
    ensures book.index[k].refs == 1 ==>
              DropRefs(book, b, {k}) ==
              book.(index := book.index - {k}, buckets := book.buckets[b := book.buckets[b] - {k}],
                    nNew := book.nNew - 1)
    ensures book.index[k].refs != 1 ==>
              DropRefs(book, b, {k}) ==
              Put(book, k, book.index[k].(refs := book.index[k].refs - 1))
              .(buckets := book.buckets[b := book.buckets[b] - {k}])
  {
    assert Gone(book.index, {k}) == if book.index[k].refs == 1 then {k} else {};
    if book.index[k].refs == 1 {
      assert DropFromIndex(book.index, {k}) == book.index - {k};
    } else {
      assert DropFromIndex(book.index, {k}) == book.index[k := book.index[k].(refs := book.index[k].refs - 1)];
    }
  }

  /** A draw is only made with a positive bound. */
  lemma HasReference(book: Book, k: Key)
    requires Inv(book) && k in book.index && !book.index[k].tried
    ensures book.index[k].refs >= 1
  {
  }

  lemma RefreshedMayGrow(book: Book, na: NetAddress, src: NetAddress)
    requires Inv(book) && na.key in book.index && !book.index[na.key].tried
    requires book.index[na.key].refs != NEW_BUCKETS_PER_ADDRESS
    ensures InvWith(Known(book, na, src), {na.key})
  {
    PutKeeps(book, na.key, Touched(book.index[na.key], na), {});
    MayGrow(Known(book, na, src), na.key);
  }

  lemma OnlyBucket(buckets: seq<set<Key>>, k: Key, b: nat)
    requires b < |buckets| && k in buckets[b] && |BucketsOf(buckets, k)| == 1
    ensures forall c :: 0 <= c < |buckets| && c != b ==> k !in buckets[c]
  {
    forall c | 0 <= c < |buckets| && c != b
      ensures k !in buckets[c]
    {
      if k in buckets[c] {
        assert {b, c} <= BucketsOf(buckets, k);
        CardinalAtLeast({b, c}, BucketsOf(buckets, k));
      }
    }
  }

  lemma CardinalAtLeast(a: set<int>, b: set<int>)
    requires a <= b
    ensures |a| <= |b|
  {
    assert b == a + (b - a);
  }

  lemma DropNothing(book: Book, b: nat)
    requires b < |book.buckets|
    ensures DropRefs(book, b, {}) == book
  {
    assert DropFromIndex(book.index, {}) == book.index;
    assert Gone(book.index, {}) == {};
    assert book.buckets[b] - {} == book.buckets[b];
    assert book.buckets[b := book.buckets[b]] == book.buckets;
  }
}
