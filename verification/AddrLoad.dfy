/**
 * Loading a file that the address manager did not write itself (btcd/addrmgr/addrmanager.go,
 * deserializePeers): exactly which files load without an error and yet break the tables.
 */
module AddrLoad {
  import opened Options
  import opened AddrBook
  import opened AddrPersist

  // ---------------------------------------------------------------- new buckets

  /** References that are counted and not in any bucket. */
  ghost function Slack(book: Book, k: Key): int
    requires k in book.index
  {
    book.index[k].refs - |BucketsOf(book.buckets, k)|
  }

  /** k comes up in the list when it is in the bucket already. */
  ghost predicate Repeats(bucket: set<Key>, keys: seq<Key>, k: Key)
    decreases |keys|
  {
    keys != [] && ((keys[0] == k && k in bucket) || Repeats(bucket + {keys[0]}, keys[1..], k))
  }

  /** Counting of addresses goes by references, repeated or not. */
  ghost predicate Counted(book: Book) {
    book.nNew == |Referenced(book.index)| && forall k :: k in book.index ==> book.index[k].refs >= 0
  }

  lemma KeyLoads(book: Book, b: nat, x: Key, k: Key)
    requires b < |book.buckets| && x in book.index && k in book.index
    ensures var after := LoadNewKey(book, b, x);
            && k in after.index
            && Slack(after, k) == Slack(book, k) + if k == x && x in book.buckets[b] then 1 else 0
  {
    if x in book.buckets[b] {
      assert book.buckets[b] + {x} == book.buckets[b];
      assert book.buckets[b := book.buckets[b] + {x}] == book.buckets;
    } else {
      BucketsAfterEnter(book.buckets, b, x, k);
    }
  }

  lemma KeyCounts(book: Book, b: nat, x: Key)
    requires b < |book.buckets| && x in book.index && Counted(book)
    ensures Counted(LoadNewKey(book, b, x)) && SameButRefs(book.index, LoadNewKey(book, b, x).index)
  {
    var after := LoadNewKey(book, b, x);
    if book.index[x].refs == 0 {
      assert x !in Referenced(book.index);
      assert Referenced(after.index) == Referenced(book.index) + {x};
    } else {
      assert Referenced(after.index) == Referenced(book.index);
    }
    assert after.index.Keys == book.index.Keys;
  }

  /** One list that loads: its bucket has its elements. */
  lemma {:induction false} ListLoads(book: Book, b: nat, keys: seq<Key>)
    requires b < |book.buckets| && Counted(book) && LoadNewList(book, b, keys).error == None
    ensures var after := LoadNewList(book, b, keys).book;
            && Counted(after) && SameButRefs(book.index, after.index)
            && after.buckets == book.buckets[b := book.buckets[b] + Elements(keys)]
            && forall i :: 0 <= i < |keys| ==> keys[i] in book.index
    decreases |keys|
  {
    if keys == [] {
      assert Elements(keys) == {};
      assert book.buckets[b] + {} == book.buckets[b];
      assert book.buckets[b := book.buckets[b]] == book.buckets;
    } else {
      var x, rest := keys[0], keys[1..];
      var next := LoadNewKey(book, b, x);
      KeyCounts(book, b, x);
      ListLoads(next, b, rest);
      ElementsCons(keys);
      assert next.buckets[b] + Elements(rest) == book.buckets[b] + Elements(keys);
      assert next.buckets[b := next.buckets[b] + Elements(rest)] == book.buckets[b := book.buckets[b] + Elements(keys)];
      assert forall i :: 1 <= i < |keys| ==> keys[i] == rest[i - 1];
    }
  }

  /** Slack grows exactly for the keys that repeat. */
  lemma {:induction false} ListSlack(book: Book, b: nat, keys: seq<Key>, k: Key)
    requires b < |book.buckets| && k in book.index && LoadNewList(book, b, keys).error == None
    ensures var after := LoadNewList(book, b, keys).book;
            && k in after.index && Slack(after, k) >= Slack(book, k)
            && (Slack(after, k) == Slack(book, k) <==> !Repeats(book.buckets[b], keys, k))
    decreases |keys|
  {
    if keys != [] {
      KeyLoads(book, b, keys[0], k);
      ListSlack(LoadNewKey(book, b, keys[0]), b, keys[1..], k);
    }
  }

  lemma {:induction false} ListsLoad(book: Book, lists: seq<seq<Key>>, b: nat)
    requires b <= |lists| == |book.buckets| && Counted(book) && LoadNew(book, lists, b).error == None
    ensures var after := LoadNew(book, lists, b).book;
            && Counted(after) && SameButRefs(book.index, after.index)
            && forall c :: 0 <= c < |lists| ==>
                 after.buckets[c] == if c < b then book.buckets[c] else book.buckets[c] + Elements(lists[c])
    decreases |lists| - b
  {
    if b < |lists| {
      ListLoads(book, b, lists[b]);
      ListsLoad(LoadNewList(book, b, lists[b]).book, lists, b + 1);
    }
  }

  lemma {:induction false} ListsKnown(book: Book, lists: seq<seq<Key>>, b: nat)
    requires b <= |lists| == |book.buckets| && Counted(book) && LoadNew(book, lists, b).error == None
    ensures forall c, i :: b <= c < |lists| && 0 <= i < |lists[c]| ==> lists[c][i] in book.index
    decreases |lists| - b
  {
    if b < |lists| {
      ListLoads(book, b, lists[b]);
      ListsKnown(LoadNewList(book, b, lists[b]).book, lists, b + 1);
    }
  }

  lemma {:induction false} ListsSlack(book: Book, lists: seq<seq<Key>>, b: nat, k: Key)
    requires b <= |lists| == |book.buckets| && Counted(book) && LoadNew(book, lists, b).error == None && k in book.index
    ensures var after := LoadNew(book, lists, b).book;
            && k in after.index && Slack(after, k) >= Slack(book, k)
            && (Slack(after, k) == Slack(book, k) <==>
                forall c :: b <= c < |lists| ==> !Repeats(book.buckets[c], lists[c], k))
    decreases |lists| - b
  {
    if b < |lists| {
      ListLoads(book, b, lists[b]);
      ListSlack(book, b, lists[b], k);
      ListsSlack(LoadNewList(book, b, lists[b]).book, lists, b + 1, k);
    }
  }

  ghost predicate Avoids(keys: seq<Key>, bucket: set<Key>) {
    forall i :: 0 <= i < |keys| ==> keys[i] !in bucket
  }

  /** A list whose keys are new to the bucket and to each other has no repetition. */
  lemma {:induction false} NothingRepeats(bucket: set<Key>, keys: seq<Key>, k: Key)
    requires Distinct(keys) && Avoids(keys, bucket)
    ensures !Repeats(bucket, keys, k)
    decreases |keys|
  {
    if keys != [] {
      DistinctCons(keys, bucket);
      NothingRepeats(bucket + {keys[0]}, keys[1..], k);
    }
  }

  lemma {:induction false} SomethingRepeats(bucket: set<Key>, keys: seq<Key>) returns (i: nat)
    requires !(Distinct(keys) && Avoids(keys, bucket))
    ensures i < |keys| && Repeats(bucket, keys, keys[i])
    decreases |keys|
  {
    DistinctCons(keys, bucket);
    if keys[0] in bucket {
      i := 0;
    } else {
      var j := SomethingRepeats(bucket + {keys[0]}, keys[1..]);
      i := j + 1;
      assert keys[i] == keys[1..][j];
    }
  }

  lemma DistinctCons(keys: seq<Key>, bucket: set<Key>)
    requires keys != []
    ensures Distinct(keys) && Avoids(keys, bucket) <==>
            keys[0] !in bucket && Distinct(keys[1..]) && Avoids(keys[1..], bucket + {keys[0]})
  {
    var rest := keys[1..];
    assert forall i :: 1 <= i < |keys| ==> keys[i] == rest[i - 1];
    assert forall i :: 0 <= i < |rest| ==> rest[i] == keys[i + 1];
    if Distinct(rest) && Avoids(rest, bucket + {keys[0]}) {
      forall i, j | 0 <= i < j < |keys|
        ensures keys[i] != keys[j]
      {
        assert rest[j - 1] !in bucket + {keys[0]};
      }
    }
  }

  // ---------------------------------------------------------------- tried lists

  lemma {:induction false} TriedListKept(book: Book, t: nat, keys: seq<Key>)
    requires t < |book.tried| && LoadTriedList(book, t, keys).error == None
    ensures var after := LoadTriedList(book, t, keys).book;
            && after.tried == book.tried[t := book.tried[t] + keys] && SameButTried(book.index, after.index)
            && forall i :: 0 <= i < |keys| ==> keys[i] in book.index
    decreases |keys|
  {
    if keys == [] {
      assert book.tried[t] + [] == book.tried[t];
      assert book.tried[t := book.tried[t]] == book.tried;
    } else {
      var x, rest := keys[0], keys[1..];
      var next := LoadTriedKey(book, t, x);
      TriedListKept(next, t, rest);
      assert next.index.Keys == book.index.Keys;
      assert next.tried[t] + rest == book.tried[t] + keys;
      assert next.tried[t := next.tried[t] + rest] == book.tried[t := book.tried[t] + keys];
      assert forall i :: 1 <= i < |keys| ==> keys[i] == rest[i - 1];
    }
  }

  lemma {:induction false} TriedListsKept(book: Book, lists: seq<seq<Key>>, t: nat)
    requires t <= |lists| == |book.tried| && LoadTried(book, lists, t).error == None
    ensures var after := LoadTried(book, lists, t).book;
            && SameButTried(book.index, after.index)
            && forall c :: 0 <= c < |lists| ==>
                 after.tried[c] == if c < t then book.tried[c] else book.tried[c] + lists[c]
    ensures forall c, i :: t <= c < |lists| && 0 <= i < |lists[c]| ==> lists[c][i] in book.index
    decreases |lists| - t
  {
    if t < |lists| {
      TriedListKept(book, t, lists[t]);
      TriedListsKept(LoadTriedList(book, t, lists[t]).book, lists, t + 1);
    }
  }

  // ---------------------------------------------------------------- which files give sound tables

  ghost function ListsWith(lists: seq<seq<Key>>, k: Key): set<int> {
    set b | 0 <= b < |lists| && k in lists[b]
  }

  ghost predicate OnePlaceEach(lists: seq<seq<Key>>) {
    forall t, i, t', i' ::
      (InTried(lists, t, i) && InTried(lists, t', i') && lists[t][i] == lists[t'][i']) ==> t == t' && i == i'
  }

  /** No list repeats itself, no address is in too many buckets or in two tried places, no list is too long. */
  ghost predicate WellFiled(saved: SavedBook) {
    && (forall b :: 0 <= b < |saved.newBuckets| ==>
          Distinct(saved.newBuckets[b]) && |saved.newBuckets[b]| <= NEW_BUCKET_SIZE + 1)
    && (forall k :: |ListsWith(saved.newBuckets, k)| <= NEW_BUCKETS_PER_ADDRESS)
    && OnePlaceEach(saved.triedBuckets)
    && (forall t :: 0 <= t < |saved.triedBuckets| ==> |saved.triedBuckets[t]| <= TRIED_BUCKET_SIZE)
  }

  lemma {:induction false} DistinctSize(keys: seq<Key>)
    requires Distinct(keys)
    ensures |Elements(keys)| == |keys|
    decreases |keys|
  {
    if keys == [] {
      assert forall k :: k !in Elements(keys);
    } else {
      ElementsCons(keys);
      DistinctCons(keys, {});
      DistinctSize(keys[1..]);
      assert keys[0] !in Elements(keys[1..]);
    }
  }

  lemma SameLists(buckets: seq<set<Key>>, lists: seq<seq<Key>>, k: Key)
    requires |buckets| == |lists| && forall b :: 0 <= b < |lists| ==> buckets[b] == Elements(lists[b])
    ensures BucketsOf(buckets, k) == ListsWith(lists, k)
  {
    forall b | 0 <= b < |lists|
      ensures k in buckets[b] <==> k in lists[b]
    {
    }
  }

  /** What a file that loads without an error leaves in the tables, well filed or not. */
  ghost predicate LeftBy(saved: SavedBook, q: Book) {
    && Shape(q) && Sane(q.index) && q.tried == saved.triedBuckets
    && |saved.newBuckets| == |q.buckets|
    && (forall b :: 0 <= b < |q.buckets| ==> q.buckets[b] == Elements(saved.newBuckets[b]))
    && (forall b, i :: 0 <= b < |q.buckets| && 0 <= i < |saved.newBuckets[b]| ==> saved.newBuckets[b][i] in q.index)
    && Counted(q)
    && (forall k :: k in q.index ==> Slack(q, k) >= 0 && (Slack(q, k) == 0 <==> NoneRepeats(saved, k)))
  }

  ghost predicate NoneRepeats(saved: SavedBook, k: Key) {
    forall c :: 0 <= c < |saved.newBuckets| ==> !Repeats({}, saved.newBuckets[c], k)
  }

  lemma ListedIs(saved: SavedBook, now: Time, k: Key)
    ensures var listed := LoadAddresses(Empty(), saved.addresses, saved.version, now);
            k in listed.index ==> listed.index[k].na.key == k && listed.index[k].refs == 0 && !listed.index[k].tried
  {
    AddressesIndexed(Empty(), saved.addresses, saved.version, now, k);
  }

  lemma ListedStarts(saved: SavedBook, now: Time)
    ensures var listed := LoadAddresses(Empty(), saved.addresses, saved.version, now);
            && listed.buckets == Empty().buckets && listed.tried == Empty().tried && listed.nTried == 0
            && Counted(listed) && (forall k :: k in listed.index ==> Slack(listed, k) == 0)
            && (forall k :: k in listed.index ==> listed.index[k].na.key == k && !listed.index[k].tried)
  {
    var listed := LoadAddresses(Empty(), saved.addresses, saved.version, now);
    AddressesKeepTables(Empty(), saved.addresses, saved.version, now);
    forall k | k in listed.index
      ensures listed.index[k].na.key == k && listed.index[k].refs == 0 && !listed.index[k].tried
    {
      ListedIs(saved, now, k);
    }
    StartsEmpty(listed);
  }

  lemma NewSlack(saved: SavedBook, listed: Book, r: Book, k: Key)
    requires listed.buckets == Empty().buckets && Counted(listed) && |saved.newBuckets| == NEW_BUCKET_COUNT
    requires k in listed.index && Slack(listed, k) == 0 && LoadNew(listed, saved.newBuckets, 0) == Loaded(r, None)
    ensures k in r.index && Slack(r, k) >= 0 && (Slack(r, k) == 0 <==> NoneRepeats(saved, k))
  {
    ListsSlack(listed, saved.newBuckets, 0, k);
    assert forall c :: 0 <= c < |saved.newBuckets| ==> listed.buckets[c] == {};
  }

  /** The buckets of a file whose new buckets load. */
  lemma NewPart(saved: SavedBook, listed: Book, r: Book)
    requires listed.buckets == Empty().buckets && Counted(listed) && |saved.newBuckets| == NEW_BUCKET_COUNT
    requires LoadNew(listed, saved.newBuckets, 0) == Loaded(r, None)
    ensures Counted(r) && SameButRefs(listed.index, r.index) && r.tried == listed.tried && r.nTried == listed.nTried
    ensures |r.buckets| == NEW_BUCKET_COUNT
    ensures forall b :: 0 <= b < |r.buckets| ==> r.buckets[b] == Elements(saved.newBuckets[b])
    ensures forall b, i :: 0 <= b < |r.buckets| && 0 <= i < |saved.newBuckets[b]| ==> saved.newBuckets[b][i] in r.index
  {
    ListsLoad(listed, saved.newBuckets, 0);
    ListsKnown(listed, saved.newBuckets, 0);
    forall b | 0 <= b < |r.buckets|
      ensures r.buckets[b] == Elements(saved.newBuckets[b])
    {
      assert listed.buckets[b] == {};
    }
  }

  /** Marking addresses as tried changes no reference and no bucket. */
  lemma TriedPart(saved: SavedBook, r: Book, q: Book)
    requires r.tried == Empty().tried && |saved.triedBuckets| == TRIED_BUCKET_COUNT && Counted(r)
    requires LoadTried(r, saved.triedBuckets, 0) == Loaded(q, None)
    ensures q.tried == saved.triedBuckets && q.buckets == r.buckets && q.nNew == r.nNew
    ensures SameButTried(r.index, q.index) && Counted(q)
    ensures forall t, i :: InTried(q.tried, t, i) ==> q.tried[t][i] in q.index
  {
    TriedListsKept(r, saved.triedBuckets, 0);
    forall t | 0 <= t < |q.tried|
      ensures q.tried[t] == saved.triedBuckets[t]
    {
      assert r.tried[t] == [];
      assert [] + saved.triedBuckets[t] == saved.triedBuckets[t];
    }
    SameReferenced(r.index, q.index);
  }

  lemma SameReferenced(a: map<Key, Entry>, b: map<Key, Entry>)
    requires SameButTried(a, b)
    ensures Referenced(a) == Referenced(b) && forall k :: k in a ==> a[k].refs == b[k].refs
  {
    forall k | k in a
      ensures a[k].refs == b[k].refs
    {
      assert a[k].(tried := false) == b[k].(tried := false);
    }
  }

  /** The stages of a load that succeeds. */
  ghost predicate Stages(saved: SavedBook, now: Time, listed: Book, r: Book, q: Book) {
    && listed == LoadAddresses(Empty(), saved.addresses, saved.version, now)
    && |saved.newBuckets| == |listed.buckets| && |saved.triedBuckets| == |r.tried|
    && LoadNew(listed, saved.newBuckets, 0) == Loaded(r, None)
    && LoadTried(r, saved.triedBuckets, 0) == Loaded(q, None)
    && Sane(q.index)
  }

  lemma StagesOf(saved: SavedBook, now: Time) returns (listed: Book, r: Book, q: Book)
    requires |saved.newBuckets| == NEW_BUCKET_COUNT && |saved.triedBuckets| == TRIED_BUCKET_COUNT
    requires Deserialize(Empty(), saved, now).error == None
    ensures Stages(saved, now, listed, r, q) && Deserialize(Empty(), saved, now).book == q
  {
    listed := LoadAddresses(Empty(), saved.addresses, saved.version, now);
    AddressesKeepTables(Empty(), saved.addresses, saved.version, now);
    r := LoadNew(listed, saved.newBuckets, 0).book;
    q := LoadTried(r, saved.triedBuckets, 0).book;
  }

  /** Entry k through all stages. */
  lemma EntryLeft(saved: SavedBook, now: Time, listed: Book, r: Book, q: Book, k: Key)
    requires Stages(saved, now, listed, r, q) && |saved.newBuckets| == NEW_BUCKET_COUNT
    requires |saved.triedBuckets| == TRIED_BUCKET_COUNT && k in q.index
    ensures q.index[k].na.key == k && Slack(q, k) >= 0 && (Slack(q, k) == 0 <==> NoneRepeats(saved, k))
  {
    ListedStarts(saved, now);
    NewPart(saved, listed, r);
    TriedPart(saved, r, q);
    NewSlack(saved, listed, r, k);
    assert q.index[k].(tried := false) == r.index[k].(tried := false);
    assert listed.index[k].(refs := 0) == r.index[k].(refs := 0);
  }

  lemma LoadLeaves(saved: SavedBook, now: Time, listed: Book, r: Book, q: Book)
    requires Stages(saved, now, listed, r, q) && |saved.newBuckets| == NEW_BUCKET_COUNT
    requires |saved.triedBuckets| == TRIED_BUCKET_COUNT
    ensures LeftBy(saved, q)
  {
    forall k | k in q.index
      ensures q.index[k].na.key == k && Slack(q, k) >= 0 && (Slack(q, k) == 0 <==> NoneRepeats(saved, k))
    {
      EntryLeft(saved, now, listed, r, q, k);
    }
    ListedStarts(saved, now);
    NewPart(saved, listed, r);
    TriedPart(saved, r, q);
  }

  // ---------------------------------------------------------------- sound tables come from well-filed files

  /** An address that a new bucket lists is referenced, so it is not tried. */
  lemma ListedIsNew(saved: SavedBook, q: Book, b: nat, i: nat)
    requires LeftBy(saved, q) && b < |q.buckets| && i < |saved.newBuckets[b]|
    ensures var k := saved.newBuckets[b][i]; k in q.index && q.index[k].refs > 0 && !q.index[k].tried
  {
    var k := saved.newBuckets[b][i];
    assert k in Elements(saved.newBuckets[b]);
    assert b in BucketsOf(q.buckets, k);
    NonEmptySize(BucketsOf(q.buckets, k), b);
  }

  lemma NonEmptySize(s: set<int>, b: int)
    requires b in s
    ensures |s| >= 1
  {
    assert {b} <= s;
    assert |s - {b}| == |s| - 1;
  }

  lemma RepeatShows(saved: SavedBook, q: Book, b: nat, k: Key)
    requires LeftBy(saved, q) && b < |q.buckets| && k in q.index && Repeats({}, saved.newBuckets[b], k)
    ensures q.index[k].refs > |BucketsOf(q.buckets, k)|
  {
    assert !NoneRepeats(saved, k);
    assert Slack(q, k) > 0;
  }

  lemma SoundIsDistinct(saved: SavedBook, q: Book, b: nat)
    requires LeftBy(saved, q) && Inv(q) && b < |q.buckets|
    ensures Distinct(saved.newBuckets[b]) && |saved.newBuckets[b]| <= NEW_BUCKET_SIZE + 1
  {
    var list := saved.newBuckets[b];
    if !(Distinct(list) && Avoids(list, {})) {
      var i := SomethingRepeats({}, list);
      ListedIsNew(saved, q, b, i);
      RepeatShows(saved, q, b, list[i]);
    }
    DistinctSize(list);
    assert |q.buckets[b]| <= NEW_BUCKET_SIZE + 1;
  }

  lemma SoundIsRare(saved: SavedBook, q: Book, k: Key)
    requires LeftBy(saved, q) && Inv(q)
    ensures |ListsWith(saved.newBuckets, k)| <= NEW_BUCKETS_PER_ADDRESS
  {
    SameLists(q.buckets, saved.newBuckets, k);
    if exists b :: 0 <= b < |q.buckets| && k in saved.newBuckets[b] {
      var b :| 0 <= b < |q.buckets| && k in saved.newBuckets[b];
      var i :| 0 <= i < |saved.newBuckets[b]| && saved.newBuckets[b][i] == k;
      ListedIsNew(saved, q, b, i);
    } else {
      assert forall b :: b !in ListsWith(saved.newBuckets, k);
      assert |ListsWith(saved.newBuckets, k)| == 0;
    }
  }

  lemma SoundIsWellFiled(saved: SavedBook, q: Book)
    requires LeftBy(saved, q) && Inv(q)
    ensures WellFiled(saved)
  {
    forall b | 0 <= b < |saved.newBuckets|
      ensures Distinct(saved.newBuckets[b]) && |saved.newBuckets[b]| <= NEW_BUCKET_SIZE + 1
    {
      SoundIsDistinct(saved, q, b);
    }
    forall k
      ensures |ListsWith(saved.newBuckets, k)| <= NEW_BUCKETS_PER_ADDRESS
    {
      SoundIsRare(saved, q, k);
    }
  }

  // ---------------------------------------------------------------- well-filed files give sound tables

  lemma WellFiledNew(saved: SavedBook, q: Book, k: Key)
    requires LeftBy(saved, q) && WellFiled(saved) && k in q.index && !q.index[k].tried
    ensures 1 <= q.index[k].refs == |BucketsOf(q.buckets, k)| <= NEW_BUCKETS_PER_ADDRESS
  {
    assert SaneEntry(q.index[k]);
    forall c | 0 <= c < |saved.newBuckets|
      ensures !Repeats({}, saved.newBuckets[c], k)
    {
      NothingRepeats({}, saved.newBuckets[c], k);
    }
    SameLists(q.buckets, saved.newBuckets, k);
  }

  lemma WellFiledBuckets(saved: SavedBook, q: Book)
    requires LeftBy(saved, q) && WellFiled(saved)
    ensures NewOk(q, {})
  {
    forall b, k | 0 <= b < |q.buckets| && k in q.buckets[b]
      ensures k in q.index && !q.index[k].tried
    {
      var i :| 0 <= i < |saved.newBuckets[b]| && saved.newBuckets[b][i] == k;
      ListedIsNew(saved, q, b, i);
    }
    forall k | k in q.index && !q.index[k].tried
      ensures 1 <= q.index[k].refs == |BucketsOf(q.buckets, k)| <= NEW_BUCKETS_PER_ADDRESS
    {
      WellFiledNew(saved, q, k);
    }
    forall b | 0 <= b < |q.buckets|
      ensures |q.buckets[b]| <= NEW_BUCKET_SIZE + 1
    {
      DistinctSize(saved.newBuckets[b]);
    }
  }

  lemma WellFiledTried(saved: SavedBook, q: Book)
    requires LeftBy(saved, q) && WellFiled(saved) && TriedLoading(q, saved.triedBuckets, |saved.triedBuckets|, 0)
    requires forall t, i :: InTried(q.tried, t, i) ==> q.tried[t][i] in q.index
    ensures TriedOk(q)
  {
    forall t, i | InTried(q.tried, t, i)
      ensures q.index[q.tried[t][i]].tried
    {
      assert Before(t, i, |saved.triedBuckets|, 0);
    }
    forall k | k in q.index && q.index[k].tried
      ensures q.index[k].refs == 0
    {
      assert SaneEntry(q.index[k]);
    }
  }

  lemma WellFiledCounts(saved: SavedBook, q: Book)
    requires LeftBy(saved, q) && q.nTried == |TriedKeys(q.index)|
    ensures CountsOk(q)
  {
    forall k | k in q.index
      ensures q.index[k].refs > 0 <==> !q.index[k].tried
    {
      assert SaneEntry(q.index[k]);
    }
    assert Referenced(q.index) == NewKeys(q.index);
  }

  lemma NoneTriedYet(r: Book, lists: seq<seq<Key>>)
    requires r.tried == Empty().tried && |lists| == TRIED_BUCKET_COUNT && r.nTried == 0
    requires forall k :: k in r.index ==> !r.index[k].tried
    ensures TriedLoading(r, lists, 0, 0)
  {
    NoneTried(r.index);
    forall c | 0 <= c < |lists|
      ensures r.tried[c] == if c == 0 && 0 <= |lists[c]| then lists[c][..0] else []
    {
    }
  }

  lemma WellFiledFlags(saved: SavedBook, now: Time, listed: Book, r: Book, q: Book)
    requires Stages(saved, now, listed, r, q) && |saved.newBuckets| == NEW_BUCKET_COUNT
    requires |saved.triedBuckets| == TRIED_BUCKET_COUNT && OnePlaceEach(saved.triedBuckets)
    ensures TriedLoading(q, saved.triedBuckets, |saved.triedBuckets|, 0)
    ensures forall t, i :: InTried(q.tried, t, i) ==> q.tried[t][i] in q.index
  {
    ListedStarts(saved, now);
    NewPart(saved, listed, r);
    TriedPart(saved, r, q);
    forall k | k in r.index
      ensures !r.index[k].tried
    {
      assert listed.index[k].(refs := 0) == r.index[k].(refs := 0);
    }
    NoneTriedYet(r, saved.triedBuckets);
    TriedListsLoad(r, saved.triedBuckets, 0);
  }

  /**
   * A file that loads without an error gives tables that satisfy the invariant if and only if it is
   * well filed: the checks of the source do not look for repetitions or for the limits.
   */
  lemma LoadedSoundExactlyIfWellFiled(saved: SavedBook, now: Time)
    requires |saved.newBuckets| == NEW_BUCKET_COUNT && |saved.triedBuckets| == TRIED_BUCKET_COUNT
    requires Deserialize(Empty(), saved, now).error == None
    ensures Inv(Deserialize(Empty(), saved, now).book) <==> WellFiled(saved)
  {
    var listed, r, q := StagesOf(saved, now);
    LoadLeaves(saved, now, listed, r, q);
    if WellFiled(saved) {
      WellFiledFlags(saved, now, listed, r, q);
      WellFiledBuckets(saved, q);
      WellFiledTried(saved, q);
      WellFiledCounts(saved, q);
    } else if Inv(q) {
      SoundIsWellFiled(saved, q);
    }
  }

  /** A bucket that lists its one address twice loads without an error; the address then has two references. */
  lemma RepeatedListingLoads(now: Time) returns (saved: SavedBook)
    ensures |saved.newBuckets| == NEW_BUCKET_COUNT && |saved.triedBuckets| == TRIED_BUCKET_COUNT
    ensures var r := Deserialize(Empty(), saved, now);
            && r.error == None && 1 in r.book.index && r.book.index[1].refs == 2 && r.book.nNew == 1
            && !Inv(r.book)
  {
    var a := SavedAddress(1, 1, 0, 0, 0, 0, {}, {}, true);
    assert FirstBad([a]) == 1;
    var empty: seq<Key> := [];
    var keys: seq<Key> := [1, 1];
    saved := SavedBook(2, [a], [keys] + seq(NEW_BUCKET_COUNT - 1, _ => empty), seq(TRIED_BUCKET_COUNT, _ => empty));
    assert [a][1..] == [];
    var b0 := Put(Empty(), 1, LoadEntry(a, 2, now));
    assert LoadAddresses(b0, [], 2, now) == b0;
    assert LoadAddresses(Empty(), [a], 2, now) == b0;
    var b2 := LoadNewKey(LoadNewKey(b0, 0, 1), 0, 1);
    assert keys[1..] == [1] && [1][1..] == [];
    assert LoadNewList(b2, 0, []) == Loaded(b2, None);
    assert LoadNewList(LoadNewKey(b0, 0, 1), 0, [1]) == Loaded(b2, None);
    assert LoadNewList(b0, 0, keys) == Loaded(b2, None);
    EmptyListsLoad(b2, saved.newBuckets, 1);
    EmptyTriedLoads(b2, saved.triedBuckets, 0);
    assert !Distinct(saved.newBuckets[0]) by {
      assert saved.newBuckets[0][0] == saved.newBuckets[0][1];
    }
    LoadedSoundExactlyIfWellFiled(saved, now);
  }

  lemma {:induction false} EmptyListsLoad(book: Book, lists: seq<seq<Key>>, b: nat)
    requires b <= |lists| == |book.buckets| && forall c :: b <= c < |lists| ==> lists[c] == []
    ensures LoadNew(book, lists, b) == Loaded(book, None)
    decreases |lists| - b
  {
    if b < |lists| {
      EmptyListsLoad(book, lists, b + 1);
    }
  }

  lemma {:induction false} EmptyTriedLoads(book: Book, lists: seq<seq<Key>>, t: nat)
    requires t <= |lists| == |book.tried| && forall c :: t <= c < |lists| ==> lists[c] == []
    ensures LoadTried(book, lists, t) == Loaded(book, None)
    decreases |lists| - t
  {
    if t < |lists| {
      EmptyTriedLoads(book, lists, t + 1);
    }
  }
}
