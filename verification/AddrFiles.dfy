/** savePeers and loadPeers on the heap (btcd/addrmgr/addrmanager.go). */
module AddrFiles {
  import opened Options
  import opened AddrBook
  import opened AddrManagers
  import opened AddrPersist
  import opened Iteration

  // ---------------------------------------------------------------- savePeers

  /** savePeers, up to the encoding of the file. */
  method SavePeers(am: AddrManager) returns (saved: SavedBook)
    requires am.Linked()
    ensures IsSaved(am.Abs(), saved)
  {
    var addresses := SaveAddresses(am);
    var newBuckets := SaveBuckets(am);
    var triedBuckets := SaveTried(am);
    saved := SavedBook(SERIALISATION_VERSION, addresses, newBuckets, triedBuckets);
  }

  method SaveAddresses(am: AddrManager) returns (r: seq<SavedAddress>)
    requires am.Linked()
    ensures forall i :: 0 <= i < |r| ==>
          r[i].addr in am.addrIndex && r[i] == SaveEntry(r[i].addr, am.Index()[r[i].addr])
    ensures forall k :: k in am.addrIndex ==> SaveEntry(k, am.Index()[k]) in r
    ensures OncePerAddress(r)
  {
    r := [];
    var rest := am.addrIndex.Keys;
    while rest != {}
      invariant rest <= am.addrIndex.Keys
      invariant forall i :: 0 <= i < |r| ==>
            r[i].addr in am.addrIndex && r[i] == SaveEntry(r[i].addr, am.Index()[r[i].addr])
      invariant forall k :: k in am.addrIndex && k !in rest ==> SaveEntry(k, am.Index()[k]) in r
      invariant OncePerAddress(r) && forall i :: 0 <= i < |r| ==> r[i].addr !in rest
      decreases |rest|
    {
      var k := Pick(rest);
      rest := rest - {k};
      r := r + [SaveEntry(k, am.addrIndex[k].Value())];
    }
  }

  /** The keys of one bucket, in the order in which the map yields them. */
  method SaveKeys(keys: set<Key>) returns (list: seq<Key>)
    ensures Lists(list, keys)
  {
    list := [];
    var rest := keys;
    while rest != {}
      invariant rest <= keys && Distinct(list) && Elements(list) == keys - rest
      decreases |rest|
    {
      var k := Pick(rest);
      rest := rest - {k};
      ElementsSnoc(list, k);
      list := list + [k];
    }
  }

  lemma ElementsSnoc(list: seq<Key>, k: Key)
    requires Distinct(list) && k !in Elements(list)
    ensures Distinct(list + [k]) && Elements(list + [k]) == Elements(list) + {k}
  {
    var longer := list + [k];
    assert forall i :: 0 <= i < |list| ==> list[i] in Elements(list) && longer[i] == list[i];
    assert longer[|list|] == k;
    forall x | x in Elements(list)
      ensures x in Elements(longer)
    {
      var i :| 0 <= i < |list| && list[i] == x;
      assert longer[i] == x;
    }
    assert k in Elements(longer);
  }

  method SaveBuckets(am: AddrManager) returns (r: seq<seq<Key>>)
    ensures |r| == |am.addrNew|
    ensures forall b :: 0 <= b < |r| ==> Lists(r[b], am.Abs().buckets[b])
  {
    r := [];
    for b := 0 to |am.addrNew|
      invariant |r| == b
      invariant forall c :: 0 <= c < b ==> Lists(r[c], am.Abs().buckets[c])
    {
      var list := SaveKeys(am.addrNew[b].Keys);
      r := r + [list];
    }
  }

  method SaveTried(am: AddrManager) returns (r: seq<seq<Key>>)
    ensures r == am.Abs().tried
  {
    r := [];
    for t := 0 to |am.addrTried|
      invariant r == am.Abs().tried[..t]
    {
      var list := SaveTriedList(am.addrTried[t]);
      r := r + [list];
    }
  }

  method SaveTriedList(entries: seq<KnownAddress>) returns (list: seq<Key>)
    ensures list == ListKeys(entries)
  {
    list := [];
    for i := 0 to |entries|
      invariant list == ListKeys(entries)[..i]
    {
      list := list + [entries[i].addr];
    }
  }

  // ---------------------------------------------------------------- loadPeers

  /** A file that can be decoded has tables of the fixed sizes. */
  ghost predicate Decodable(file: PeersFile) {
    file.Readable? ==>
      |file.saved.newBuckets| == NEW_BUCKET_COUNT && |file.saved.triedBuckets| == TRIED_BUCKET_COUNT
  }

  /** loadPeers into a fresh manager; a file that fails to load is dropped and the tables are reset. */
  method LoadPeers(am: AddrManager, file: PeersFile, now: Time) returns (error: Option<LoadError>)
    requires am.Linked() && am.Abs() == Empty() && Decodable(file)
    modifies am
    ensures am.Linked()
    ensures error == ErrorOf(file, now)
    ensures am.Abs() == LoadFile(Empty(), file, now)
  {
    error := DeserializePeers(am, file, now);
    if error.Some? {
      ResetTables(am);
    }
  }

  /** reset */
  method ResetTables(am: AddrManager)
    modifies am
    ensures am.Linked()
    ensures am.Abs() == Reset(old(am.Abs()))
  {
    am.addrIndex := map[];
    am.addrNew := seq(NEW_BUCKET_COUNT, _ => map[]);
    am.addrTried := seq(TRIED_BUCKET_COUNT, _ => []);
    assert forall b :: 0 <= b < NEW_BUCKET_COUNT ==> am.addrNew[b] == map[] && am.Abs().buckets[b] == {};
    assert am.Abs().buckets == Empty().buckets;
    assert forall t :: 0 <= t < TRIED_BUCKET_COUNT ==> am.Abs().tried[t] == [];
    assert am.Abs().tried == Empty().tried;
    assert am.Abs().index == Empty().index;
  }

  ghost function ErrorOf(file: PeersFile, now: Time): Option<LoadError>
    requires Decodable(file)
  {
    match file
    case Absent => None
    case Unreadable => Some(FileError)
    case Readable(saved) => Deserialize(Empty(), saved, now).error
  }

  /** deserializePeers */
  method DeserializePeers(am: AddrManager, file: PeersFile, now: Time) returns (error: Option<LoadError>)
    requires am.Linked() && am.Abs() == Empty() && Decodable(file)
    modifies am
    ensures am.Linked()
    ensures error == ErrorOf(file, now)
    ensures am.Abs() == if file.Readable? then Deserialize(Empty(), file.saved, now).book else Empty()
  {
    match file
    case Absent => return None;
    case Unreadable => return Some(FileError);
    case Readable(saved) => error := ReadBook(am, saved, now);
  }

  /** The tables of a file that was decoded. */
  method ReadBook(am: AddrManager, saved: SavedBook, now: Time) returns (error: Option<LoadError>)
    requires am.Linked() && am.Abs() == Empty()
    requires |saved.newBuckets| == NEW_BUCKET_COUNT && |saved.triedBuckets| == TRIED_BUCKET_COUNT
    modifies am
    ensures am.Linked()
    ensures var r := Deserialize(Empty(), saved, now); error == r.error && am.Abs() == r.book
  {
    if saved.version > SERIALISATION_VERSION {
      return Some(UnknownVersion);
    }
    TablesEmpty(am);
    var n := ReadAddresses(am, saved, now);
    if n < |saved.addresses| {
      return Some(BadAddress);
    }
    assert saved.addresses[..n] == saved.addresses;
    AddressesKeepTables(Empty(), saved.addresses, saved.version, now);
    error := ReadTables(am, saved);
  }

  /** The buckets, the lists and the sanity checks, once the addresses are filed. */
  method ReadTables(am: AddrManager, saved: SavedBook) returns (error: Option<LoadError>)
    requires am.Linked() && |saved.newBuckets| == |am.addrNew| && |saved.triedBuckets| == |am.addrTried|
    modifies am, am.Objects()
    ensures am.Linked() && Loaded(am.Abs(), error) == LoadTables(old(am.Abs()), saved)
  {
    error := ReadNew(am, saved.newBuckets);
    if error.Some? {
      return;
    }
    error := ReadTried(am, saved.triedBuckets);
    if error.Some? {
      return;
    }
    error := CheckSanity(am);
  }

  lemma TablesEmpty(am: AddrManager)
    requires am.Abs() == Empty()
    ensures am.addrIndex == map[]
    ensures forall b :: 0 <= b < |am.addrNew| ==> am.addrNew[b] == map[]
    ensures forall t :: 0 <= t < |am.addrTried| ==> am.addrTried[t] == []
  {
    assert am.Index().Keys == {};
    forall b | 0 <= b < |am.addrNew|
      ensures am.addrNew[b] == map[]
    {
      assert am.Abs().buckets[b] == {};
    }
    forall t | 0 <= t < |am.addrTried|
      ensures am.addrTried[t] == []
    {
      assert am.Abs().tried[t] == [];
    }
  }

  /** Files one saved address, while no bucket and no list refers to any address yet. */
  method ReadAddress(am: AddrManager, s: SavedAddress, version: int, now: Time)
    requires am.Linked()
    requires forall b :: 0 <= b < |am.addrNew| ==> am.addrNew[b] == map[]
    requires forall t :: 0 <= t < |am.addrTried| ==> am.addrTried[t] == []
    modifies am`addrIndex
    ensures am.Linked() && fresh(am.Objects() - old(am.Objects()))
    ensures am.Abs() == Put(old(am.Abs()), s.addr, LoadEntry(s, version, now))
  {
    var e := LoadEntry(s, version, now);
    var ka := new KnownAddress.Load(e);
    am.addrIndex := am.addrIndex[s.addr := ka];
    assert am.Abs().index == old(am.Abs()).index[s.addr := e];
  }

  lemma LoadOneMore(book: Book, saved: seq<SavedAddress>, n: nat, version: int, now: Time)
    requires n < |saved|
    ensures LoadAddresses(book, saved[n..], version, now) ==
            LoadAddresses(Put(book, saved[n].addr, LoadEntry(saved[n], version, now)), saved[n + 1..], version, now)
  {
    assert saved[n..][1..] == saved[n + 1..];
  }

  /** Files the addresses up to the first that does not parse. */
  method ReadAddresses(am: AddrManager, saved: SavedBook, now: Time) returns (n: nat)
    requires am.Linked()
    requires forall b :: 0 <= b < |am.addrNew| ==> am.addrNew[b] == map[]
    requires forall t :: 0 <= t < |am.addrTried| ==> am.addrTried[t] == []
    modifies am`addrIndex
    ensures am.Linked() && fresh(am.Objects() - old(am.Objects()))
    ensures n == FirstBad(saved.addresses)
    ensures am.Abs() == LoadAddresses(old(am.Abs()), saved.addresses[..n], saved.version, now)
  {
    ghost var readable := saved.addresses[..FirstBad(saved.addresses)];
    ghost var goal := LoadAddresses(am.Abs(), readable, saved.version, now);
    assert readable[0..] == readable;
    n := 0;
    while n < |saved.addresses| && saved.addresses[n].parses
      invariant n <= FirstBad(saved.addresses)
      invariant am.Linked() && fresh(am.Objects() - old(am.Objects()))
      invariant LoadAddresses(am.Abs(), readable[n..], saved.version, now) == goal
    {
      LoadOneMore(am.Abs(), readable, n, saved.version, now);
      ReadAddress(am, saved.addresses[n], saved.version, now);
      n := n + 1;
    }
    assert readable[n..] == [];
  }

  // ---------------------------------------------------------------- buckets and lists

  method ReadNewKey(am: AddrManager, b: nat, k: Key)
    requires am.Linked() && b < |am.addrNew| && k in am.addrIndex
    modifies am, am.addrIndex[k]
    ensures am.Linked() && am.addrIndex == old(am.addrIndex) && |am.addrNew| == |old(am.addrNew)|
    ensures am.Abs() == LoadNewKey(old(am.Abs()), b, k)
  {
    ghost var before := am.Abs();
    if am.addrIndex[k].refs == 0 {
      am.nNew := am.nNew + 1;
    }
    assert am.Index() == before.index;
    am.Join(k, b);
  }

  method ReadNewList(am: AddrManager, b: nat, keys: seq<Key>) returns (error: Option<LoadError>)
    requires am.Linked() && b < |am.addrNew|
    modifies am, am.Objects()
    ensures am.Linked() && am.addrIndex == old(am.addrIndex) && |am.addrNew| == |old(am.addrNew)|
    ensures Loaded(am.Abs(), error) == LoadNewList(old(am.Abs()), b, keys)
  {
    ghost var goal := LoadNewList(am.Abs(), b, keys);
    assert keys[0..] == keys;
    for i := 0 to |keys|
      invariant am.Linked() && am.addrIndex == old(am.addrIndex) && |am.addrNew| == |old(am.addrNew)|
      invariant LoadNewList(am.Abs(), b, keys[i..]) == goal
    {
      assert keys[i..][1..] == keys[i + 1..];
      if keys[i] !in am.addrIndex {
        return Some(MissingAddress(keys[i]));
      }
      ReadNewKey(am, b, keys[i]);
    }
    return None;
  }

  method ReadNew(am: AddrManager, lists: seq<seq<Key>>) returns (error: Option<LoadError>)
    requires am.Linked() && |lists| == |am.addrNew|
    modifies am, am.Objects()
    ensures am.Linked() && am.addrIndex == old(am.addrIndex)
    ensures Loaded(am.Abs(), error) == LoadNew(old(am.Abs()), lists, 0)
  {
    ghost var goal := LoadNew(am.Abs(), lists, 0);
    for b := 0 to |lists|
      invariant am.Linked() && am.addrIndex == old(am.addrIndex) && |am.addrNew| == |lists|
      invariant LoadNew(am.Abs(), lists, b) == goal
    {
      error := ReadNewList(am, b, lists[b]);
      if error.Some? {
        return;
      }
    }
    return None;
  }

  method ReadTriedList(am: AddrManager, t: nat, keys: seq<Key>) returns (error: Option<LoadError>)
    requires am.Linked() && t < |am.addrTried|
    modifies am, am.Objects()
    ensures am.Linked() && am.addrIndex == old(am.addrIndex) && |am.addrTried| == |old(am.addrTried)|
    ensures Loaded(am.Abs(), error) == LoadTriedList(old(am.Abs()), t, keys)
  {
    ghost var goal := LoadTriedList(am.Abs(), t, keys);
    assert keys[0..] == keys;
    for i := 0 to |keys|
      invariant am.Linked() && am.addrIndex == old(am.addrIndex) && |am.addrTried| == |old(am.addrTried)|
      invariant LoadTriedList(am.Abs(), t, keys[i..]) == goal
    {
      assert keys[i..][1..] == keys[i + 1..];
      if keys[i] !in am.addrIndex {
        return Some(MissingAddress(keys[i]));
      }
      am.JoinTried(keys[i], t);
    }
    return None;
  }

  method ReadTried(am: AddrManager, lists: seq<seq<Key>>) returns (error: Option<LoadError>)
    requires am.Linked() && |lists| == |am.addrTried|
    modifies am, am.Objects()
    ensures am.Linked() && am.addrIndex == old(am.addrIndex)
    ensures Loaded(am.Abs(), error) == LoadTried(old(am.Abs()), lists, 0)
  {
    ghost var goal := LoadTried(am.Abs(), lists, 0);
    for t := 0 to |lists|
      invariant am.Linked() && am.addrIndex == old(am.addrIndex) && |am.addrTried| == |lists|
      invariant LoadTried(am.Abs(), lists, t) == goal
    {
      error := ReadTriedList(am, t, lists[t]);
      if error.Some? {
        return;
      }
    }
    return None;
  }

  /** The sanity checks over the whole index. */
  method CheckSanity(am: AddrManager) returns (error: Option<LoadError>)
    ensures error == if Sane(am.Index()) then None else Some(Inconsistent)
  {
    var rest := am.addrIndex.Keys;
    while rest != {}
      invariant rest <= am.addrIndex.Keys
      invariant forall k :: k in am.addrIndex && k !in rest ==> SaneEntry(am.addrIndex[k].Value())
      decreases |rest|
    {
      var k := Pick(rest);
      rest := rest - {k};
      var v := am.addrIndex[k];
      if v.refs == 0 && !v.tried {
        assert !SaneEntry(am.Index()[k]);
        return Some(Inconsistent);
      }
      if v.refs > 0 && v.tried {
        assert !SaneEntry(am.Index()[k]);
        return Some(Inconsistent);
      }
    }
    return None;
  }
}
