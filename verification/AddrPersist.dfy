/**
 * Saving and loading the address manager (btcd/addrmgr/addrmanager.go, savePeers, loadPeers,
 * deserializePeers, reset).  The file is a value; printing an address and parsing it back are
 * inverse, but a file may hold addresses that do not parse.  Times are saved in whole seconds, and the
 * last-seen time is not restored at all.
 */
module AddrPersist {
  import opened Options
  import opened AddrBook

  const SERIALISATION_VERSION := 2
  const DEFAULT_SERVICES: Services := {0}  // SFNodeNetwork

  /** `parses`: both addresses of the record can be parsed. */
  datatype SavedAddress = SavedAddress(addr: Key, src: Key, attempts: int, timestamp: int, lastAttempt: int,
                                       lastSuccess: int, services: Services, srcServices: Services, parses: bool)

  datatype SavedBook = SavedBook(version: int, addresses: seq<SavedAddress>, newBuckets: seq<seq<Key>>,
                                 triedBuckets: seq<seq<Key>>)

  /** The file is missing, cannot be opened or decoded, or holds saved tables. */
  datatype PeersFile = Absent | Unreadable | Readable(saved: SavedBook)

  /** Time.Unix */
  function Unix(t: Time): int {
    t / SECOND
  }

  /** time.Unix(s, 0) */
  function FromUnix(s: int): Time {
    s * SECOND
  }

  // ---------------------------------------------------------------- saving

  function SaveEntry(k: Key, e: Entry): SavedAddress {
    SavedAddress(k, e.srcAddr.key, e.attempts, Unix(e.na.timestamp), Unix(e.lastAttempt), Unix(e.lastSuccess),
                 e.na.services, e.srcAddr.services, true)
  }

  ghost function Elements(keys: seq<Key>): set<Key> {
    set i | 0 <= i < |keys| :: keys[i]
  }

  ghost predicate Distinct(s: seq<Key>) {
    forall i, j :: 0 <= i < j < |s| ==> s[i] != s[j]
  }

  /** list holds the elements of s, each once, in some order. */
  ghost predicate Lists(list: seq<Key>, s: set<Key>) {
    Distinct(list) && Elements(list) == s
  }

  ghost predicate OncePerAddress(saved: seq<SavedAddress>) {
    forall i, j :: 0 <= i < j < |saved| ==> saved[i].addr != saved[j].addr
  }

  /** saved is what savePeers may write for the tables: maps come out in any order. */
  ghost predicate IsSaved(book: Book, saved: SavedBook) {
    && saved.version == SERIALISATION_VERSION
    && (forall i :: 0 <= i < |saved.addresses| ==>
          && saved.addresses[i].addr in book.index
          && saved.addresses[i] == SaveEntry(saved.addresses[i].addr, book.index[saved.addresses[i].addr]))
    && OncePerAddress(saved.addresses)
    && (forall k :: k in book.index ==> SaveEntry(k, book.index[k]) in saved.addresses)
    && |saved.newBuckets| == |book.buckets|
    && (forall b :: 0 <= b < |book.buckets| ==> Lists(saved.newBuckets[b], book.buckets[b]))
    && saved.triedBuckets == book.tried
  }

  // ---------------------------------------------------------------- loading

  /** Inconsistent: an address with no references, or one both new and tried; map order decides which is reported. */
  datatype LoadError = FileError | UnknownVersion | BadAddress | MissingAddress(key: Key) | Inconsistent

  datatype Loaded = Loaded(book: Book, error: Option<LoadError>)

  function LoadEntry(s: SavedAddress, version: int, now: Time): Entry {
    var services := if version == 1 then DEFAULT_SERVICES else s.services;
    var srcServices := if version == 1 then DEFAULT_SERVICES else s.srcServices;
    Entry(NetAddress(s.addr, now, services), NetAddress(s.src, now, srcServices), s.attempts,
          FromUnix(s.lastAttempt), FromUnix(s.lastSuccess), false, 0)
  }

  function LoadAddresses(book: Book, saved: seq<SavedAddress>, version: int, now: Time): Book
    decreases |saved|
  {
    if saved == [] then book
    else
      var s := saved[0];
      LoadAddresses(Put(book, s.addr, LoadEntry(s, version, now)), saved[1..], version, now)
  }

  /** The first record whose addresses do not parse. */
  function FirstBad(saved: seq<SavedAddress>): (n: nat)
    ensures n <= |saved| && (n < |saved| ==> !saved[n].parses)
    ensures forall i :: 0 <= i < n ==> saved[i].parses
  {
    if saved == [] || !saved[0].parses then 0 else 1 + FirstBad(saved[1..])
  }

  /** One entry of a new bucket. */
  function LoadNewKey(book: Book, b: nat, k: Key): Book
    requires b < |book.buckets| && k in book.index
  {
    var e := book.index[k];
    Book(book.index[k := e.(refs := e.refs + 1)], book.buckets[b := book.buckets[b] + {k}], book.tried,
         if e.refs == 0 then book.nNew + 1 else book.nNew, book.nTried)
  }

  function LoadNewList(book: Book, b: nat, keys: seq<Key>): (r: Loaded)
    requires b < |book.buckets|
    ensures |r.book.buckets| == |book.buckets| && r.book.tried == book.tried && r.book.nTried == book.nTried
    ensures r.book.nNew >= book.nNew
    ensures r.book.index.Keys == book.index.Keys
    decreases |keys|
  {
    if keys == [] then Loaded(book, None)
    else if keys[0] !in book.index then Loaded(book, Some(MissingAddress(keys[0])))
    else LoadNewList(LoadNewKey(book, b, keys[0]), b, keys[1..])
  }

  function LoadNew(book: Book, lists: seq<seq<Key>>, b: nat): (r: Loaded)
    requires b <= |lists| == |book.buckets|
    ensures |r.book.buckets| == |book.buckets| && r.book.tried == book.tried && r.book.nTried == book.nTried
    ensures r.book.nNew >= book.nNew
    ensures r.book.index.Keys == book.index.Keys
    decreases |lists| - b
  {
    if b == |lists| then Loaded(book, None)
    else
      var r := LoadNewList(book, b, lists[b]);
      if r.error.Some? then r else LoadNew(r.book, lists, b + 1)
  }

  function LoadTriedKey(book: Book, t: nat, k: Key): Book
    requires t < |book.tried| && k in book.index
  {
    Put(book, k, book.index[k].(tried := true))
    .(tried := book.tried[t := book.tried[t] + [k]], nTried := book.nTried + 1)
  }

  function LoadTriedList(book: Book, t: nat, keys: seq<Key>): (r: Loaded)
    requires t < |book.tried|
    ensures |r.book.tried| == |book.tried| && r.book.buckets == book.buckets && r.book.nNew == book.nNew
    ensures r.book.nTried >= book.nTried
    ensures r.book.index.Keys == book.index.Keys
    decreases |keys|
  {
    if keys == [] then Loaded(book, None)
    else if keys[0] !in book.index then Loaded(book, Some(MissingAddress(keys[0])))
    else LoadTriedList(LoadTriedKey(book, t, keys[0]), t, keys[1..])
  }

  function LoadTried(book: Book, lists: seq<seq<Key>>, t: nat): (r: Loaded)
    requires t <= |lists| == |book.tried|
    ensures |r.book.tried| == |book.tried| && r.book.buckets == book.buckets && r.book.nNew == book.nNew
    ensures r.book.nTried >= book.nTried
    ensures r.book.index.Keys == book.index.Keys
    decreases |lists| - t
  {
    if t == |lists| then Loaded(book, None)
    else
      var r := LoadTriedList(book, t, lists[t]);
      if r.error.Some? then r else LoadTried(r.book, lists, t + 1)
  }

  /** The sanity checks. */
  predicate Sane(index: map<Key, Entry>) {
    forall k :: k in index ==> SaneEntry(index[k])
  }

  predicate SaneEntry(e: Entry) {
    !(e.refs == 0 && !e.tried) && !(e.refs > 0 && e.tried)
  }

  /** deserializePeers */
  function Deserialize(book: Book, saved: SavedBook, now: Time): (r: Loaded)
    requires |saved.newBuckets| == |book.buckets| && |saved.triedBuckets| == |book.tried|
  {
    if saved.version > SERIALISATION_VERSION then Loaded(book, Some(UnknownVersion))
    else if FirstBad(saved.addresses) < |saved.addresses| then
      Loaded(LoadAddresses(book, saved.addresses[..FirstBad(saved.addresses)], saved.version, now), Some(BadAddress))
    else
      var listed := LoadAddresses(book, saved.addresses, saved.version, now);
      AddressesKeepTables(book, saved.addresses, saved.version, now);
      LoadTables(listed, saved)
  }

  /** The buckets, the lists and the sanity checks. */
  function LoadTables(listed: Book, saved: SavedBook): Loaded
    requires |saved.newBuckets| == |listed.buckets| && |saved.triedBuckets| == |listed.tried|
  {
    var r := LoadNew(listed, saved.newBuckets, 0);
    if r.error.Some? then r
    else
      var q := LoadTried(r.book, saved.triedBuckets, 0);
      if q.error.Some? then q
      else if Sane(q.book.index) then q
      else Loaded(q.book, Some(Inconsistent))
  }

  lemma {:induction false} AddressesKeepTables(book: Book, saved: seq<SavedAddress>, version: int, now: Time)
    ensures var r := LoadAddresses(book, saved, version, now);
      r.buckets == book.buckets && r.tried == book.tried && r.nNew == book.nNew && r.nTried == book.nTried
    decreases |saved|
  {
    if saved != [] {
      AddressesKeepTables(Put(book, saved[0].addr, LoadEntry(saved[0], version, now)), saved[1..], version, now);
    }
  }

  /** reset: fresh tables, but the counters stay. */
  function Reset(book: Book): Book {
    Empty().(nNew := book.nNew, nTried := book.nTried)
  }

  /** loadPeers */
  function LoadPeers(book: Book, saved: SavedBook, now: Time): Book
    requires |saved.newBuckets| == |book.buckets| && |saved.triedBuckets| == |book.tried|
  {
    var r := Deserialize(book, saved, now);
    if r.error.Some? then Reset(r.book) else r.book
  }

  /** loadPeers, whatever the file is like. */
  function LoadFile(book: Book, file: PeersFile, now: Time): Book
    requires file.Readable? ==> |file.saved.newBuckets| == |book.buckets| && |file.saved.triedBuckets| == |book.tried|
  {
    match file
    case Absent => book
    case Unreadable => Reset(book)
    case Readable(saved) => LoadPeers(book, saved, now)
  }

  // ---------------------------------------------------------------- what loading restores

  /** Everything but the last-seen times, with attempt and success times cut to whole seconds. */
  function RestoredEntry(e: Entry, now: Time): Entry {
    e.(na := e.na.(timestamp := now), srcAddr := e.srcAddr.(timestamp := now),
       lastAttempt := FromUnix(Unix(e.lastAttempt)), lastSuccess := FromUnix(Unix(e.lastSuccess)))
  }

  ghost function Restored(book: Book, now: Time): Book {
    book.(index := map k | k in book.index :: RestoredEntry(book.index[k], now))
  }

  /** The restored tables satisfy the invariant again. */
  lemma RestoredInv(book: Book, now: Time)
    requires Inv(book)
    ensures Inv(Restored(book, now))
  {
    var r := Restored(book, now);
    assert forall k :: k in r.index <==> k in book.index;
    assert forall k :: k in book.index ==> SameStanding(book.index[k], r.index[k]);
    assert NewKeys(r.index) == NewKeys(book.index);
    assert TriedKeys(r.index) == TriedKeys(book.index);
  }

  // ---------------------------------------------------------------- addresses

  ghost predicate HasAddr(saved: seq<SavedAddress>, k: Key) {
    exists i :: 0 <= i < |saved| && saved[i].addr == k
  }

  /** Loading the list files each address under its key; the last one wins. */
  lemma {:induction false} AddressesIndexed(book: Book, saved: seq<SavedAddress>, version: int, now: Time, k: Key)
    ensures var r := LoadAddresses(book, saved, version, now).index;
      && (k in r <==> k in book.index || HasAddr(saved, k))
      && (HasAddr(saved, k) ==>
            exists i :: 0 <= i < |saved| && saved[i].addr == k && r[k] == LoadEntry(saved[i], version, now))
      && (k in book.index && !HasAddr(saved, k) ==> r[k] == book.index[k])
    decreases |saved|
  {
    if saved != [] {
      var s, rest := saved[0], saved[1..];
      var book' := Put(book, s.addr, LoadEntry(s, version, now));
      AddressesIndexed(book', rest, version, now, k);
      var r := LoadAddresses(book', rest, version, now).index;
      HasAddrCons(saved, k);
      if HasAddr(rest, k) {
        var i :| 0 <= i < |rest| && rest[i].addr == k && r[k] == LoadEntry(rest[i], version, now);
        assert saved[i + 1] == rest[i];
      }
    }
  }

  lemma HasAddrCons(saved: seq<SavedAddress>, k: Key)
    requires saved != []
    ensures HasAddr(saved, k) <==> saved[0].addr == k || HasAddr(saved[1..], k)
  {
    var rest := saved[1..];
    assert forall i :: 1 <= i < |saved| ==> saved[i] == rest[i - 1];
    assert forall i :: 0 <= i < |rest| ==> rest[i] == saved[i + 1];
  }

  /** After the addresses: every saved address, restored but without references. */
  lemma AddressesRestored(book: Book, saved: SavedBook, now: Time)
    requires Inv(book) && IsSaved(book, saved)
    ensures var r := LoadAddresses(Empty(), saved.addresses, saved.version, now);
      && r.index.Keys == book.index.Keys
      && r.buckets == Empty().buckets && r.tried == Empty().tried && r.nNew == 0 && r.nTried == 0
      && forall k :: k in book.index ==> r.index[k] == RestoredEntry(book.index[k], now).(tried := false, refs := 0)
  {
    var r := LoadAddresses(Empty(), saved.addresses, saved.version, now);
    AddressesKeepTables(Empty(), saved.addresses, saved.version, now);
    forall k
      ensures k in r.index <==> k in book.index
      ensures k in book.index ==> r.index[k] == RestoredEntry(book.index[k], now).(tried := false, refs := 0)
    {
      AddressesIndexed(Empty(), saved.addresses, saved.version, now, k);
      if k in book.index {
        var i :| 0 <= i < |saved.addresses| && saved.addresses[i] == SaveEntry(k, book.index[k]);
        assert saved.addresses[i].addr == k;
        assert HasAddr(saved.addresses, k);
      }
    }
  }

  // ---------------------------------------------------------------- new buckets

  /** While new buckets are loaded: refs counts the buckets loaded so far, nNew the addresses they hold. */
  ghost predicate NewLoading(book: Book) {
    && (forall k :: k in book.index ==> book.index[k].refs == |BucketsOf(book.buckets, k)|)
    && book.nNew == |Referenced(book.index)|
  }

  ghost function Referenced(index: map<Key, Entry>): set<Key> {
    set k | k in index && index[k].refs > 0
  }

  /** Nothing but reference counts differs. */
  ghost predicate SameButRefs(a: map<Key, Entry>, b: map<Key, Entry>) {
    a.Keys == b.Keys && forall k :: k in a ==> a[k].(refs := 0) == b[k].(refs := 0)
  }

  lemma NewKeyLoads(book: Book, b: nat, k: Key)
    requires NewLoading(book) && b < |book.buckets| && k in book.index && k !in book.buckets[b]
    ensures NewLoading(LoadNewKey(book, b, k))
    ensures SameButRefs(book.index, LoadNewKey(book, b, k).index)
  {
    var after := LoadNewKey(book, b, k);
    forall j | j in after.index
      ensures after.index[j].refs == |BucketsOf(after.buckets, j)|
    {
      BucketsAfterEnter(book.buckets, b, k, j);
    }
    if book.index[k].refs == 0 {
      assert k !in Referenced(book.index);
      assert Referenced(after.index) == Referenced(book.index) + {k};
    } else {
      assert Referenced(after.index) == Referenced(book.index);
    }
    assert after.index.Keys == book.index.Keys;
  }

  lemma {:induction false} NewListLoads(book: Book, b: nat, keys: seq<Key>)
    requires NewLoading(book) && b < |book.buckets| && Distinct(keys)
    requires forall i :: 0 <= i < |keys| ==> keys[i] in book.index && keys[i] !in book.buckets[b]
    ensures var r := LoadNewList(book, b, keys);
      && r.error == None && NewLoading(r.book) && SameButRefs(book.index, r.book.index)
      && r.book.buckets == book.buckets[b := book.buckets[b] + Elements(keys)]
    decreases |keys|
  {
    if keys == [] {
      assert Elements(keys) == {};
      assert book.buckets[b] + {} == book.buckets[b];
      assert book.buckets[b := book.buckets[b]] == book.buckets;
    } else {
      var k, rest := keys[0], keys[1..];
      NewKeyLoads(book, b, k);
      var next := LoadNewKey(book, b, k);
      assert forall i :: 0 <= i < |rest| ==> rest[i] == keys[i + 1];
      NewListLoads(next, b, rest);
      ElementsCons(keys);
      assert next.buckets[b] + Elements(rest) == book.buckets[b] + Elements(keys);
      assert next.buckets[b := next.buckets[b] + Elements(rest)] == book.buckets[b := book.buckets[b] + Elements(keys)];
    }
  }

  lemma NotInEmpty(s: set<Key>, keys: seq<Key>)
    requires s == {}
    ensures forall i :: 0 <= i < |keys| ==> keys[i] !in s
  {
  }

  lemma ElementsCons(keys: seq<Key>)
    requires keys != []
    ensures Elements(keys) == {keys[0]} + Elements(keys[1..])
  {
    var rest := keys[1..];
    assert forall i :: 1 <= i < |keys| ==> keys[i] == rest[i - 1];
    assert forall i :: 0 <= i < |rest| ==> rest[i] == keys[i + 1];
    forall x | x in Elements(rest)
      ensures x in Elements(keys)
    {
      var i :| 0 <= i < |rest| && rest[i] == x;
      assert keys[i + 1] == x;
    }
    forall x | x in Elements(keys)
      ensures x == keys[0] || x in Elements(rest)
    {
      var i :| 0 <= i < |keys| && keys[i] == x;
      assert i > 0 ==> rest[i - 1] == x;
    }
  }

  /** All new buckets: from bucket b on they were empty, and now they are the saved ones. */
  lemma {:induction false} NewBucketsLoad(book: Book, lists: seq<seq<Key>>, goal: seq<set<Key>>, b: nat)
    requires b <= |lists| == |book.buckets| == |goal| && NewLoading(book)
    requires forall c :: 0 <= c < |lists| ==> Lists(lists[c], goal[c])
    requires forall c, k :: 0 <= c < |lists| && k in goal[c] ==> k in book.index
    requires forall c :: 0 <= c < |lists| ==> book.buckets[c] == if c < b then goal[c] else {}
    ensures var r := LoadNew(book, lists, b);
      r.error == None && NewLoading(r.book) && SameButRefs(book.index, r.book.index) && r.book.buckets == goal
    decreases |lists| - b
  {
    if b == |lists| {
      assert book.buckets == goal;
    } else {
      OneBucketLoads(book, lists[b], goal[b], b);
      NewBucketsLoad(LoadNewList(book, b, lists[b]).book, lists, goal, b + 1);
    }
  }

  lemma OneBucketLoads(book: Book, list: seq<Key>, goal: set<Key>, b: nat)
    requires b < |book.buckets| && NewLoading(book) && Lists(list, goal)
    requires forall k :: k in goal ==> k in book.index
    requires book.buckets[b] == {}
    ensures var r := LoadNewList(book, b, list);
      && r.error == None && NewLoading(r.book) && SameButRefs(book.index, r.book.index)
      && r.book.buckets == book.buckets[b := goal]
  {
    forall i | 0 <= i < |list|
      ensures list[i] in book.index
    {
      assert list[i] in Elements(list);
    }
    NotInEmpty(book.buckets[b], list);
    NewListLoads(book, b, list);
    assert book.buckets[b] + goal == goal;
  }

  // ---------------------------------------------------------------- tried lists

  ghost predicate SameButTried(a: map<Key, Entry>, b: map<Key, Entry>) {
    a.Keys == b.Keys && forall k :: k in a ==> a[k].(tried := false) == b[k].(tried := false)
  }

  /** Up to place i of list t everything has been loaded. */
  ghost predicate Before(t: int, i: int, t': int, i': int) {
    t < t' || (t == t' && i < i')
  }

  /** While tried lists are loaded up to place (t, n): the flags mark the addresses placed so far. */
  ghost predicate TriedLoading(book: Book, goal: seq<seq<Key>>, t: nat, n: nat) {
    && |book.tried| == |goal|
    && (forall c :: 0 <= c < |goal| ==>
          book.tried[c] == if c < t then goal[c] else if c == t && n <= |goal[c]| then goal[c][..n] else [])
    && (forall k :: k in book.index ==>
          (book.index[k].tried <==> exists c, i :: InTried(goal, c, i) && Before(c, i, t, n) && goal[c][i] == k))
    && book.nTried == |TriedKeys(book.index)|
  }

  /** The lists name known addresses, no address twice. */
  ghost predicate Placeable(index: map<Key, Entry>, goal: seq<seq<Key>>) {
    && (forall t, i :: InTried(goal, t, i) ==> goal[t][i] in index)
    && (forall t, i, t', i' :: InTried(goal, t, i) && InTried(goal, t', i') && goal[t][i] == goal[t'][i'] ==>
          t == t' && i == i')
  }

  lemma TriedKeyLoads(book: Book, goal: seq<seq<Key>>, t: nat, n: nat)
    requires TriedLoading(book, goal, t, n) && Placeable(book.index, goal) && InTried(goal, t, n)
    ensures TriedLoading(LoadTriedKey(book, t, goal[t][n]), goal, t, n + 1)
    ensures SameButTried(book.index, LoadTriedKey(book, t, goal[t][n]).index)
  {
    TriedPlace(book, goal, t, n);
    TriedCount(book, goal, t, n);
    TriedFlags(book, goal, t, n);
  }

  lemma TriedPlace(book: Book, goal: seq<seq<Key>>, t: nat, n: nat)
    requires TriedLoading(book, goal, t, n) && Placeable(book.index, goal) && InTried(goal, t, n)
    ensures var after := LoadTriedKey(book, t, goal[t][n]);
      && |after.tried| == |goal|
      && forall c :: 0 <= c < |goal| ==>
            after.tried[c] == if c < t then goal[c] else if c == t then goal[c][..n + 1] else []
  {
    assert goal[t][..n + 1] == goal[t][..n] + [goal[t][n]];
  }

  lemma TriedCount(book: Book, goal: seq<seq<Key>>, t: nat, n: nat)
    requires TriedLoading(book, goal, t, n) && Placeable(book.index, goal) && InTried(goal, t, n)
    ensures var after := LoadTriedKey(book, t, goal[t][n]); after.nTried == |TriedKeys(after.index)|
  {
    var k := goal[t][n];
    var after := LoadTriedKey(book, t, k);
    forall c, i | InTried(goal, c, i) && Before(c, i, t, n)
      ensures goal[c][i] != k
    {
    }
    assert !book.index[k].tried;
    assert TriedKeys(after.index) == TriedKeys(book.index) + {k};
  }

  lemma TriedFlags(book: Book, goal: seq<seq<Key>>, t: nat, n: nat)
    requires TriedLoading(book, goal, t, n) && Placeable(book.index, goal) && InTried(goal, t, n)
    ensures forall k :: k in book.index ==>
              (LoadTriedKey(book, t, goal[t][n]).index[k].tried <==>
                    exists c, i :: InTried(goal, c, i) && Before(c, i, t, n + 1) && goal[c][i] == k)
  {
    var after := LoadTriedKey(book, t, goal[t][n]);
    forall k | k in book.index
      ensures after.index[k].tried <==> exists c, i :: InTried(goal, c, i) && Before(c, i, t, n + 1) && goal[c][i] == k
    {
      if k == goal[t][n] {
        assert Before(t, n, t, n + 1);
      } else if book.index[k].tried {
        var c, i :| InTried(goal, c, i) && Before(c, i, t, n) && goal[c][i] == k;
        assert Before(c, i, t, n + 1);
      } else {
        forall c, i | InTried(goal, c, i) && Before(c, i, t, n + 1)
          ensures goal[c][i] != k
        {
          assert Before(c, i, t, n) || (c == t && i == n);
        }
      }
    }
  }

  lemma {:induction false} TriedListLoads(book: Book, goal: seq<seq<Key>>, t: nat, n: nat)
    requires t < |goal| && n <= |goal[t]|
    requires TriedLoading(book, goal, t, n) && Placeable(book.index, goal)
    ensures var r := LoadTriedList(book, t, goal[t][n..]);
      r.error == None && TriedLoading(r.book, goal, t, |goal[t]|) && SameButTried(book.index, r.book.index)
    decreases |goal[t]| - n
  {
    if n < |goal[t]| {
      assert InTried(goal, t, n);
      TriedKeyLoads(book, goal, t, n);
      assert goal[t][n..][1..] == goal[t][n + 1..];
      TriedListLoads(LoadTriedKey(book, t, goal[t][n]), goal, t, n + 1);
    }
  }

  lemma NextList(book: Book, goal: seq<seq<Key>>, t: nat)
    requires t < |goal| && TriedLoading(book, goal, t, |goal[t]|)
    ensures TriedLoading(book, goal, t + 1, 0)
  {
    assert goal[t][..|goal[t]|] == goal[t];
    forall k | k in book.index
      ensures book.index[k].tried <==> exists c, i :: InTried(goal, c, i) && Before(c, i, t + 1, 0) && goal[c][i] == k
    {
      if book.index[k].tried {
        var c, i :| InTried(goal, c, i) && Before(c, i, t, |goal[t]|) && goal[c][i] == k;
        assert Before(c, i, t + 1, 0);
      } else {
        forall c, i | InTried(goal, c, i) && Before(c, i, t + 1, 0)
          ensures goal[c][i] != k
        {
          assert Before(c, i, t, |goal[t]|);
        }
      }
    }
  }

  lemma OneListLoads(book: Book, goal: seq<seq<Key>>, t: nat)
    requires t < |goal| && TriedLoading(book, goal, t, 0) && Placeable(book.index, goal)
    ensures var r := LoadTriedList(book, t, goal[t]);
      r.error == None && TriedLoading(r.book, goal, t + 1, 0) && SameButTried(book.index, r.book.index)
  {
    TriedListLoads(book, goal, t, 0);
    assert goal[t][0..] == goal[t];
    NextList(LoadTriedList(book, t, goal[t]).book, goal, t);
  }

  lemma {:induction false} TriedListsLoad(book: Book, goal: seq<seq<Key>>, t: nat)
    requires t <= |goal| && TriedLoading(book, goal, t, 0) && Placeable(book.index, goal)
    ensures var r := LoadTried(book, goal, t);
      r.error == None && TriedLoading(r.book, goal, |goal|, 0) && SameButTried(book.index, r.book.index)
    decreases |goal| - t
  {
    if t < |goal| {
      OneListLoads(book, goal, t);
      TriedListsLoad(LoadTriedList(book, t, goal[t]).book, goal, t + 1);
    }
  }

  // ---------------------------------------------------------------- the round trip

  /** What was saved and then loaded into a fresh manager passes the sanity checks and restores the tables. */
  lemma SaveLoadRestores(book: Book, saved: SavedBook, now: Time)
    requires Inv(book) && IsSaved(book, saved)
    ensures Deserialize(Empty(), saved, now) == Loaded(Restored(book, now), None)
  {
    var goal := Restored(book, now);
    assert FirstBad(saved.addresses) == |saved.addresses|;
    var listed := LoadAddresses(Empty(), saved.addresses, saved.version, now);
    AddressesRestored(book, saved, now);
    StartsEmpty(listed);
    NewBucketsLoad(listed, saved.newBuckets, book.buckets, 0);
    var r := LoadNew(listed, saved.newBuckets, 0).book;
    StartsUntried(r, listed, book);
    TriedListsLoad(r, book.tried, 0);
    var q := LoadTried(r, book.tried, 0).book;
    IndexRestored(book, listed, r, q, now);
  }

  lemma StartsEmpty(listed: Book)
    requires listed.buckets == Empty().buckets && listed.nNew == 0
    requires forall k :: k in listed.index ==> listed.index[k].refs == 0
    ensures NewLoading(listed)
  {
    forall k | k in listed.index
      ensures |BucketsOf(listed.buckets, k)| == 0
    {
      assert forall b :: b !in BucketsOf(listed.buckets, k);
    }
    NoneReferenced(listed.index);
  }

  lemma NoneTried(index: map<Key, Entry>)
    requires forall k :: k in index ==> !index[k].tried
    ensures |TriedKeys(index)| == 0
  {
    assert forall k :: k !in TriedKeys(index);
  }

  lemma NoneReferenced(index: map<Key, Entry>)
    requires forall k :: k in index ==> index[k].refs == 0
    ensures |Referenced(index)| == 0
  {
    assert forall k :: k !in Referenced(index);
  }

  lemma StartsUntried(r: Book, listed: Book, book: Book)
    requires Inv(book) && listed.index.Keys == book.index.Keys && SameButRefs(listed.index, r.index)
    requires forall k :: k in listed.index ==> !listed.index[k].tried
    requires r.tried == Empty().tried && r.nTried == 0
    ensures TriedLoading(r, book.tried, 0, 0) && Placeable(r.index, book.tried)
  {
    forall k | k in r.index
      ensures !r.index[k].tried
    {
      assert k in listed.index && listed.index[k].(refs := 0) == r.index[k].(refs := 0);
    }
    NoneTried(r.index);
    forall c | 0 <= c < |book.tried|
      ensures r.tried[c] == if c == 0 && 0 <= |book.tried[c]| then book.tried[c][..0] else []
    {
    }
  }

  /** The loaded index has the restored entries, with the reference counts and flags it found. */
  lemma IndexRestored(book: Book, listed: Book, r: Book, q: Book, now: Time)
    requires Inv(book) && listed.index.Keys == book.index.Keys
    requires forall k :: k in book.index ==>
          listed.index[k] == RestoredEntry(book.index[k], now).(tried := false, refs := 0)
    requires SameButRefs(listed.index, r.index) && NewLoading(r) && r.buckets == book.buckets
    requires SameButTried(r.index, q.index) && TriedLoading(q, book.tried, |book.tried|, 0)
    requires q.buckets == r.buckets && q.nNew == r.nNew
    ensures q == Restored(book, now) && Sane(q.index)
  {
    var goal := Restored(book, now);
    forall k | k in book.index
      ensures q.index[k] == goal.index[k]
      ensures r.index[k].refs > 0 <==> !book.index[k].tried
    {
      EntryRestored(book, listed, r, q, now, k);
    }
    assert r.index.Keys == book.index.Keys;
    assert q.index == goal.index;
    assert q.tried == book.tried;
    assert TriedKeys(q.index) == TriedKeys(book.index);
    assert Referenced(r.index) == NewKeys(book.index);
  }

  lemma EntryRestored(book: Book, listed: Book, r: Book, q: Book, now: Time, k: Key)
    requires Inv(book) && listed.index.Keys == book.index.Keys && k in book.index
    requires listed.index[k] == RestoredEntry(book.index[k], now).(tried := false, refs := 0)
    requires SameButRefs(listed.index, r.index) && NewLoading(r) && r.buckets == book.buckets
    requires SameButTried(r.index, q.index) && TriedLoading(q, book.tried, |book.tried|, 0)
    ensures q.index[k] == RestoredEntry(book.index[k], now) && r.index[k].refs == book.index[k].refs
  {
    assert r.index[k].refs == |BucketsOf(book.buckets, k)|;
    if book.index[k].tried {
      var t, i :| InTried(book.tried, t, i) && book.tried[t][i] == k;
      assert Before(t, i, |book.tried|, 0);
      assert BucketsOf(book.buckets, k) == {};
    } else {
      forall t, i | InTried(book.tried, t, i)
        ensures book.tried[t][i] != k
      {
      }
      assert !q.index[k].tried;
    }
  }

  // ---------------------------------------------------------------- loads that fail

  /** The first key that lists b, b + 1, ... name. */
  function FirstIn(lists: seq<seq<Key>>, b: nat): Option<Key>
    requires b <= |lists|
    decreases |lists| - b
  {
    if b == |lists| then None
    else if lists[b] != [] then Some(lists[b][0])
    else FirstIn(lists, b + 1)
  }

  /** The first bucket entry of a file. */
  function FirstListed(saved: SavedBook): Option<Key> {
    var f := FirstIn(saved.newBuckets, 0);
    if f.Some? then f else FirstIn(saved.triedBuckets, 0)
  }

  lemma {:induction false} FirstNew(book: Book, lists: seq<seq<Key>>, b: nat)
    requires b <= |lists| == |book.buckets|
    requires forall k :: k in book.index ==> book.index[k].refs == 0
    ensures var f, r := FirstIn(lists, b), LoadNew(book, lists, b);
      && (f == None ==> r == Loaded(book, None))
      && (f.Some? && f.value in book.index ==> r.book.nNew > book.nNew)
      && (f.Some? && f.value !in book.index ==> r == Loaded(book, Some(MissingAddress(f.value))))
    decreases |lists| - b
  {
    if b < |lists| {
      if lists[b] == [] {
        FirstNew(book, lists, b + 1);
      } else if lists[b][0] in book.index {
        assert LoadNewList(book, b, lists[b]) == LoadNewList(LoadNewKey(book, b, lists[b][0]), b, lists[b][1..]);
      }
    }
  }

  lemma {:induction false} FirstTried(book: Book, lists: seq<seq<Key>>, t: nat)
    requires t <= |lists| == |book.tried|
    ensures var f, r := FirstIn(lists, t), LoadTried(book, lists, t);
      && (f == None ==> r == Loaded(book, None))
      && (f.Some? && f.value in book.index ==> r.book.nTried > book.nTried)
      && (f.Some? && f.value !in book.index ==> r == Loaded(book, Some(MissingAddress(f.value))))
    decreases |lists| - t
  {
    if t < |lists| {
      if lists[t] == [] {
        FirstTried(book, lists, t + 1);
      } else if lists[t][0] in book.index {
        assert LoadTriedList(book, t, lists[t]) == LoadTriedList(LoadTriedKey(book, t, lists[t][0]), t, lists[t][1..]);
      }
    }
  }

  /** A failing file has been counted: its addresses parse, and its first bucket entry names one of them. */
  ghost predicate CountsBeforeFailing(saved: SavedBook) {
    && saved.version <= SERIALISATION_VERSION && FirstBad(saved.addresses) == |saved.addresses|
    && FirstListed(saved).Some? && HasAddr(saved.addresses, FirstListed(saved).value)
  }

  lemma AddressesUnreferenced(saved: seq<SavedAddress>, version: int, now: Time)
    ensures forall k :: k in LoadAddresses(Empty(), saved, version, now).index ==>
              LoadAddresses(Empty(), saved, version, now).index[k].refs == 0 && HasAddr(saved, k)
  {
    forall k | k in LoadAddresses(Empty(), saved, version, now).index
      ensures LoadAddresses(Empty(), saved, version, now).index[k].refs == 0 && HasAddr(saved, k)
    {
      AddressesIndexed(Empty(), saved, version, now, k);
    }
  }

  lemma CountersAfterLoad(saved: SavedBook, now: Time)
    requires |saved.newBuckets| == NEW_BUCKET_COUNT && |saved.triedBuckets| == TRIED_BUCKET_COUNT
    ensures var r := Deserialize(Empty(), saved, now).book;
      r.nNew == 0 && r.nTried == 0 <==> !CountsBeforeFailing(saved)
  {
    if saved.version <= SERIALISATION_VERSION && FirstBad(saved.addresses) < |saved.addresses| {
      AddressesKeepTables(Empty(), saved.addresses[..FirstBad(saved.addresses)], saved.version, now);
    } else if saved.version <= SERIALISATION_VERSION {
      var listed := LoadAddresses(Empty(), saved.addresses, saved.version, now);
      AddressesKeepTables(Empty(), saved.addresses, saved.version, now);
      AddressesUnreferenced(saved.addresses, saved.version, now);
      FirstNew(listed, saved.newBuckets, 0);
      var r := LoadNew(listed, saved.newBuckets, 0);
      FirstTried(r.book, saved.triedBuckets, 0);
      if FirstListed(saved).Some? {
        AddressesIndexed(Empty(), saved.addresses, saved.version, now, FirstListed(saved).value);
      }
    }
  }

  lemma CountersNeverNegative(saved: SavedBook, now: Time)
    requires |saved.newBuckets| == NEW_BUCKET_COUNT && |saved.triedBuckets| == TRIED_BUCKET_COUNT
    ensures var r := Deserialize(Empty(), saved, now).book; r.nNew >= 0 && r.nTried >= 0
  {
    AddressesKeepTables(Empty(), saved.addresses, saved.version, now);
    AddressesKeepTables(Empty(), saved.addresses[..FirstBad(saved.addresses)], saved.version, now);
  }

  /**
   * reset does not clear the counters, so after a load that fails the tables and the counters of a
   * fresh manager agree exactly when the failure came before any bucket entry was counted.
   */
  lemma FailedLoadCounters(saved: SavedBook, now: Time)
    requires |saved.newBuckets| == NEW_BUCKET_COUNT && |saved.triedBuckets| == TRIED_BUCKET_COUNT
    requires Deserialize(Empty(), saved, now).error.Some?
    ensures Inv(LoadPeers(Empty(), saved, now)) <==> !CountsBeforeFailing(saved)
  {
    CountersAfterLoad(saved, now);
    EmptyInv();
    var after := LoadPeers(Empty(), saved, now);
    assert after.index == map[];
    assert NewKeys(map[]) == {} && TriedKeys(map[]) == {};
    if after.nNew == 0 && after.nTried == 0 {
      assert after == Empty();
    }
  }

  /** A file with one good bucket entry and one unknown one leaves a count of one over empty tables. */
  lemma FailedLoadLeavesCount(now: Time) returns (saved: SavedBook)
    ensures |saved.newBuckets| == NEW_BUCKET_COUNT && |saved.triedBuckets| == TRIED_BUCKET_COUNT
    ensures Deserialize(Empty(), saved, now).error == Some(MissingAddress(2))
    ensures var after := LoadPeers(Empty(), saved, now);
      after.index == map[] && after.nNew == 1 && !Inv(after)
  {
    var a := SavedAddress(1, 1, 0, 0, 0, 0, {}, {}, true);
    assert FirstBad([a]) == 1;
    var empty: seq<Key> := [];
    saved := SavedBook(2, [a], [[1, 2]] + seq(NEW_BUCKET_COUNT - 1, _ => empty), seq(TRIED_BUCKET_COUNT, _ => empty));
    var b0 := LoadAddresses(Empty(), [a], 2, now);
    assert [a][1..] == [];
    assert LoadAddresses(Put(Empty(), 1, LoadEntry(a, 2, now)), [], 2, now) == Put(Empty(), 1, LoadEntry(a, 2, now));
    assert b0 == Put(Empty(), 1, LoadEntry(a, 2, now));
    var keys: seq<Key> := [1, 2];
    assert saved.newBuckets[0] == keys && keys[1..] == [2];
    var b1 := LoadNewKey(b0, 0, 1);
    assert LoadNewList(b1, 0, [2]) == Loaded(b1, Some(MissingAddress(2)));
    assert LoadNewList(b0, 0, keys) == Loaded(b1, Some(MissingAddress(2)));
    assert HasAddr(saved.addresses, 1);
    assert FirstListed(saved) == Some(1);
    FailedLoadCounters(saved, now);
  }
}
