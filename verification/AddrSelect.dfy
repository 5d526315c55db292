/**
 * GetAddress and chance (btcd/addrmgr/addrmanager.go, btcd/addrmgr/knownaddress.go), over real
 * numbers.  The random numbers of a call are a sequence of draws.
 */
module AddrSelect {
  import opened Options
  import opened AddrBook
  import opened AddrManagers
  import AddrPersist
  import opened Iteration

  // ---------------------------------------------------------------- chance

  function Power(base: real, n: nat): real {
    if n == 0 then 1.0 else base * Power(base, n - 1)
  }

  lemma {:induction false} PowerPositive(base: real, n: nat)
    requires base > 0.0
    ensures Power(base, n) > 0.0
  {
    if n > 0 { PowerPositive(base, n - 1); }
  }

  function Failures(e: Entry): nat {
    if e.attempts > 0 then e.attempts else 0
  }

  /** The last attempt was less than ten minutes ago, or lies in the future. */
  predicate Recent(e: Entry, now: Time) {
    (if now - e.lastAttempt < 0 then 0 else now - e.lastAttempt) < 10 * MINUTE
  }

  /** A hundredth for a recent attempt, and two thirds for every failed one. */
  function Chance(e: Entry, now: Time): (c: real)
    ensures 0.0 < c <= 1.0
  {
    PowerPositive(1.5, Failures(e));
    PowerAtLeastOne(1.5, Failures(e));
    DivideAtMostOne(if Recent(e, now) then 0.01 else 1.0, Power(1.5, Failures(e)));
    (if Recent(e, now) then 0.01 else 1.0) / Power(1.5, Failures(e))
  }

  lemma {:induction false} PowerAtLeastOne(base: real, n: nat)
    requires base >= 1.0
    ensures Power(base, n) >= 1.0
  {
    if n > 0 { PowerAtLeastOne(base, n - 1); }
  }

  lemma DivideAtMostOne(a: real, b: real)
    requires 0.0 < a <= 1.0 <= b
    ensures 0.0 < a / b <= 1.0
  {
  }

  /** chance: the loop divides once per failed attempt. */
  method ComputeChance(ka: KnownAddress, now: Time) returns (c: real)
    ensures c == Chance(ka.Value(), now)
  {
    var lastAttempt := now - ka.lastAttempt;
    if lastAttempt < 0 {
      lastAttempt := 0;
    }
    c := 1.0;
    if lastAttempt < 10 * MINUTE {
      c := c * 0.01;
    }
    ghost var start := c;
    ghost var n := Failures(ka.Value());
    var i := ka.attempts;
    while i > 0
      invariant i <= ka.attempts && (ka.attempts >= 0 ==> i >= 0)
      invariant Power(1.5, n - (if i > 0 then i else 0)) > 0.0
      invariant c == start / Power(1.5, n - (if i > 0 then i else 0))
    {
      DivideAgain(start, n - i);
      c := c / 1.5;
      i := i - 1;
    }
  }

  lemma DivideAgain(start: real, n: nat)
    ensures Power(1.5, n) > 0.0 && Power(1.5, n + 1) > 0.0
    ensures start / Power(1.5, n) / 1.5 == start / Power(1.5, n + 1)
  {
    PowerPositive(1.5, n);
    PowerPositive(1.5, n + 1);
  }

  // ---------------------------------------------------------------- what a chance is

  /** With nothing against it an address has chance one. */
  lemma UnspoiltIsCertain(e: Entry, now: Time)
    requires e.attempts <= 0 && now - e.lastAttempt >= 10 * MINUTE
    ensures Chance(e, now) == 1.0
  {
  }

  /** An attempt less than ten minutes ago, or in the future, leaves a hundredth of the chance. */
  lemma RecentIsHundredth(e: Entry, earlier: Time, now: Time)
    requires now - e.lastAttempt < 10 * MINUTE <= now - earlier
    ensures Chance(e, now) * 100.0 == Chance(e.(lastAttempt := earlier), now)
  {
    PowerPositive(1.5, Failures(e));
    Hundredth(Power(1.5, Failures(e)));
  }

  lemma Hundredth(p: real)
    requires p > 0.0
    ensures 0.01 / p * 100.0 == 1.0 / p
  {
  }

  /** Every failed attempt takes a third of the chance. */
  lemma FailureIsTwoThirds(e: Entry, now: Time)
    requires e.attempts >= 0
    ensures Chance(e.(attempts := e.attempts + 1), now) * 3.0 == Chance(e, now) * 2.0
  {
    var start := if Recent(e, now) then 0.01 else 1.0;
    assert Recent(e.(attempts := e.attempts + 1), now) == Recent(e, now);
    DivideAgain(start, e.attempts);
    TwoThirds(start / Power(1.5, e.attempts));
  }

  lemma TwoThirds(c: real)
    ensures c / 1.5 * 3.0 == c * 2.0
  {
  }

  // ---------------------------------------------------------------- GetAddress

  const LARGE := 0x4000_0000

  /** One round: a bucket, an entry of it if it has any, and the number compared with the chance. */
  datatype Draw = Draw(bucket: nat, key: Key, randval: nat)

  /** The entries of a bucket of the table in use. */
  function TableBucket(book: Book, useTried: bool, b: nat): set<Key> {
    if useTried then (if b < |book.tried| then set i | 0 <= i < |book.tried[b]| :: book.tried[b][i] else {})
    else (if b < |book.buckets| then book.buckets[b] else {})
  }

  predicate ValidDraw(book: Book, useTried: bool, d: Draw) {
    && d.bucket < (if useTried then |book.tried| else |book.buckets|)
    && d.randval < LARGE
    && (TableBucket(book, useTried, d.bucket) != {} ==>
          d.key in TableBucket(book, useTried, d.bucket) && d.key in book.index)
  }

  predicate ValidDraws(book: Book, useTried: bool, draws: seq<Draw>) {
    forall i :: 0 <= i < |draws| ==> ValidDraw(book, useTried, draws[i])
  }

  predicate Accepts(book: Book, now: Time, factor: real, d: Draw) {
    d.key in book.index && d.randval as real < factor * Chance(book.index[d.key], now) * LARGE as real
  }

  /** The loop: empty buckets are drawn again, and every refusal raises the factor. */
  function Select(book: Book, useTried: bool, draws: seq<Draw>, now: Time, factor: real): Option<Key> {
    if draws == [] then None
    else if TableBucket(book, useTried, draws[0].bucket) == {} then Select(book, useTried, draws[1..], now, factor)
    else if Accepts(book, now, factor, draws[0]) then Some(draws[0].key)
    else Select(book, useTried, draws[1..], now, factor * 1.2)
  }

  /** The draws that hit a bucket with entries. */
  function Picks(book: Book, useTried: bool, draws: seq<Draw>): nat {
    if draws == [] then 0
    else (if TableBucket(book, useTried, draws[0].bucket) == {} then 0 else 1) + Picks(book, useTried, draws[1..])
  }

  /** From empty tables nothing is ever selected, however often one draws. */
  lemma {:induction false} EmptyTablesSelectNothing(book: Book, useTried: bool, draws: seq<Draw>, now: Time,
                                                    factor: real)
    requires forall b :: 0 <= b < |book.buckets| ==> book.buckets[b] == {}
    requires forall t :: 0 <= t < |book.tried| ==> book.tried[t] == []
    ensures Select(book, useTried, draws, now, factor) == None
    decreases |draws|
  {
    if draws != [] {
      EmptyTablesSelectNothing(book, useTried, draws[1..], now, factor);
    }
  }

  /**
   * After a load that failed once entries had been counted, the manager claims addresses and its tables
   * are empty: GetAddress neither gives up nor ever returns.
   */
  lemma FailedLoadNeverSelects(saved: AddrPersist.SavedBook, now: Time, useTried: bool, draws: seq<Draw>, factor: real)
    requires |saved.newBuckets| == NEW_BUCKET_COUNT && |saved.triedBuckets| == TRIED_BUCKET_COUNT
    requires AddrPersist.Deserialize(Empty(), saved, now).error.Some? && AddrPersist.CountsBeforeFailing(saved)
    ensures var after := AddrPersist.LoadPeers(Empty(), saved, now);
            after.nNew + after.nTried > 0 && Select(after, useTried, draws, now, factor) == None
  {
    var after := AddrPersist.LoadPeers(Empty(), saved, now);
    AddrPersist.CountersNeverNegative(saved, now);
    AddrPersist.CountersAfterLoad(saved, now);
    EmptyTablesSelectNothing(after, useTried, draws, now, factor);
  }

  /** Whatever is selected is an entry of the table in use. */
  lemma {:induction false} SelectedIsIndexed(book: Book, useTried: bool, draws: seq<Draw>, now: Time, factor: real)
    requires Inv(book) && ValidDraws(book, useTried, draws)
    ensures var r := Select(book, useTried, draws, now, factor);
      r.Some? ==> r.value in book.index && book.index[r.value].tried == useTried
    decreases |draws|
  {
    if draws != [] {
      var d := draws[0];
      assert ValidDraw(book, useTried, d);
      if TableBucket(book, useTried, d.bucket) != {} && Accepts(book, now, factor, d) {
        if useTried {
          var i :| 0 <= i < |book.tried[d.bucket]| && book.tried[d.bucket][i] == d.key;
          assert InTried(book.tried, d.bucket, i);
        } else {
          assert d.key in book.buckets[d.bucket];
        }
      } else {
        assert forall i :: 0 <= i < |draws[1..]| ==> draws[1..][i] == draws[i + 1];
        SelectedIsIndexed(book, useTried, draws[1..], now, factor);
        SelectedIsIndexed(book, useTried, draws[1..], now, factor * 1.2);
      }
    }
  }

  /** Once the factor has made up for the least chance the next pick is taken. */
  lemma AcceptsSurely(book: Book, now: Time, factor: real, d: Draw, least: real)
    requires d.key in book.index && d.randval < LARGE
    requires least > 0.0 && factor * least >= 1.0 && Chance(book.index[d.key], now) >= least && factor > 0.0
    ensures Accepts(book, now, factor, d)
  {
    var c := Chance(book.index[d.key], now);
    assert factor * c >= factor * least;
    AtLeastTimes(factor * c, LARGE as real);
  }

  lemma AtLeastTimes(a: real, b: real)
    requires a >= 1.0 && b >= 0.0
    ensures a * b >= b
  {
  }

  lemma {:induction false} SelectWithin(book: Book, useTried: bool, draws: seq<Draw>, now: Time, factor: real,
                                        least: real, n: nat)
    requires ValidDraws(book, useTried, draws) && Picks(book, useTried, draws) > n
    requires least > 0.0 && factor > 0.0 && factor * Power(1.2, n) * least >= 1.0
    requires forall k :: k in book.index ==> Chance(book.index[k], now) >= least
    ensures Select(book, useTried, draws, now, factor).Some?
    decreases |draws|
  {
    var d, rest := draws[0], draws[1..];
    assert ValidDraw(book, useTried, d);
    assert forall i :: 0 <= i < |rest| ==> rest[i] == draws[i + 1];
    if TableBucket(book, useTried, d.bucket) == {} {
      SelectWithin(book, useTried, rest, now, factor, least, n);
    } else if !Accepts(book, now, factor, d) {
      if n == 0 {
        AcceptsSurely(book, now, factor, d, least);
      } else {
        assert factor * Power(1.2, n) == factor * 1.2 * Power(1.2, n - 1);
        SelectWithin(book, useTried, rest, now, factor * 1.2, least, n - 1);
      }
    }
  }

  /** However small the least chance is, some number of refusals makes up for it. */
  lemma EnoughRefusals(least: real) returns (n: nat)
    requires least > 0.0
    ensures Power(1.2, n) * least >= 1.0
  {
    n := (5.0 / least).Floor + 1;
    Bernoulli(n);
    assert n as real >= 5.0 / least;
    assert n as real * least >= 5.0;
    assert Power(1.2, n) * least >= (1.0 + n as real / 5.0) * least;
  }

  lemma {:induction false} Bernoulli(n: nat)
    ensures Power(1.2, n) >= 1.0 + n as real / 5.0
  {
    if n > 0 { Bernoulli(n - 1); }
  }

  // ---------------------------------------------------------------- which draw is taken

  /** Draw i hits an entry and is low enough, the factor having grown by a fifth with every earlier pick. */
  predicate Takes(book: Book, useTried: bool, draws: seq<Draw>, now: Time, factor: real, i: nat)
    requires i < |draws|
  {
    && TableBucket(book, useTried, draws[i].bucket) != {}
    && Accepts(book, now, factor * Power(1.2, Picks(book, useTried, draws[..i])), draws[i])
  }

  lemma TakesLater(book: Book, useTried: bool, draws: seq<Draw>, now: Time, factor: real, i: nat)
    requires 0 < i < |draws|
    ensures var hit := TableBucket(book, useTried, draws[0].bucket) != {};
            Takes(book, useTried, draws, now, factor, i) <==>
            Takes(book, useTried, draws[1..], now, if hit then factor * 1.2 else factor, i - 1)
  {
    assert draws[..i][1..] == draws[1..][..i - 1];
    var n := Picks(book, useTried, draws[1..][..i - 1]);
    assert Power(1.2, n + 1) == 1.2 * Power(1.2, n);
    assert factor * (1.2 * Power(1.2, n)) == (factor * 1.2) * Power(1.2, n);
  }

  /** The first draw that is taken decides. */
  lemma {:induction false} FirstTakenIsSelected(book: Book, useTried: bool, draws: seq<Draw>, now: Time, factor: real,
                                                i: nat)
    requires i < |draws| && Takes(book, useTried, draws, now, factor, i)
    requires forall j :: 0 <= j < i ==> !Takes(book, useTried, draws, now, factor, j)
    ensures Select(book, useTried, draws, now, factor) == Some(draws[i].key)
    decreases |draws|
  {
    if i == 0 {
      NoPicksYet(book, useTried, draws, factor);
    } else {
      NotTakenAtOnce(book, useTried, draws, now, factor);
      var factor' := if TableBucket(book, useTried, draws[0].bucket) != {} then factor * 1.2 else factor;
      TakesLater(book, useTried, draws, now, factor, i);
      forall j | 0 <= j < i - 1
        ensures !Takes(book, useTried, draws[1..], now, factor', j)
      {
        TakesLater(book, useTried, draws, now, factor, j + 1);
      }
      FirstTakenIsSelected(book, useTried, draws[1..], now, factor', i - 1);
    }
  }

  lemma NoPicksYet(book: Book, useTried: bool, draws: seq<Draw>, factor: real)
    ensures factor * Power(1.2, Picks(book, useTried, draws[..0])) == factor
  {
  }

  lemma NotTakenAtOnce(book: Book, useTried: bool, draws: seq<Draw>, now: Time, factor: real)
    requires draws != [] && !Takes(book, useTried, draws, now, factor, 0)
    ensures var hit := TableBucket(book, useTried, draws[0].bucket) != {};
            Select(book, useTried, draws, now, factor) ==
            Select(book, useTried, draws[1..], now, if hit then factor * 1.2 else factor)
  {
    NoPicksYet(book, useTried, draws, factor);
  }

  lemma {:induction false} NoneTakenNoneSelected(book: Book, useTried: bool, draws: seq<Draw>, now: Time, factor: real)
    requires forall j :: 0 <= j < |draws| ==> !Takes(book, useTried, draws, now, factor, j)
    ensures Select(book, useTried, draws, now, factor) == None
    decreases |draws|
  {
    if draws != [] {
      NotTakenAtOnce(book, useTried, draws, now, factor);
      var factor' := if TableBucket(book, useTried, draws[0].bucket) != {} then factor * 1.2 else factor;
      forall j | 0 <= j < |draws[1..]|
        ensures !Takes(book, useTried, draws[1..], now, factor', j)
      {
        TakesLater(book, useTried, draws, now, factor, j + 1);
      }
      NoneTakenNoneSelected(book, useTried, draws[1..], now, factor');
    }
  }

  /** Draw i is the first to hit a bucket with entries. */
  predicate FirstPick(book: Book, useTried: bool, draws: seq<Draw>, i: nat) {
    && i < |draws| && TableBucket(book, useTried, draws[i].bucket) != {}
    && forall j :: 0 <= j < i ==> TableBucket(book, useTried, draws[j].bucket) == {}
  }

  lemma {:induction false} EmptyPicks(book: Book, useTried: bool, draws: seq<Draw>)
    requires forall j :: 0 <= j < |draws| ==> TableBucket(book, useTried, draws[j].bucket) == {}
    ensures Picks(book, useTried, draws) == 0
    decreases |draws|
  {
    if draws != [] {
      assert forall j :: 0 <= j < |draws[1..]| ==> draws[1..][j] == draws[j + 1];
      EmptyPicks(book, useTried, draws[1..]);
    }
  }

  lemma FirstPickDecides(book: Book, useTried: bool, draws: seq<Draw>, now: Time, i: nat)
    requires FirstPick(book, useTried, draws, i)
    ensures Takes(book, useTried, draws, now, 1.0, i) <==> Accepts(book, now, 1.0, draws[i])
    ensures Accepts(book, now, 1.0, draws[i]) ==>
              Select(book, useTried, draws, now, 1.0) == Some(draws[i].key)
  {
    EmptyPicks(book, useTried, draws[..i]);
    if Takes(book, useTried, draws, now, 1.0, i) {
      FirstTakenIsSelected(book, useTried, draws, now, 1.0, i);
    }
  }

  /** An address with nothing against it is returned by the pick that hits it, whatever number is drawn. */
  lemma UnspoiltIsReturned(book: Book, useTried: bool, draws: seq<Draw>, now: Time, i: nat)
    requires FirstPick(book, useTried, draws, i) && ValidDraw(book, useTried, draws[i])
    requires var e := book.index[draws[i].key]; e.attempts <= 0 && now - e.lastAttempt >= 10 * MINUTE
    ensures Select(book, useTried, draws, now, 1.0) == Some(draws[i].key)
  {
    UnspoiltIsCertain(book.index[draws[i].key], now);
    FirstPickDecides(book, useTried, draws, now, i);
  }

  /** One attempted just now is returned by that pick only for one number in a hundred. */
  lemma RecentIsSeldomReturned(book: Book, useTried: bool, draws: seq<Draw>, now: Time, i: nat)
    requires FirstPick(book, useTried, draws, i) && ValidDraw(book, useTried, draws[i])
    requires var e := book.index[draws[i].key]; e.attempts <= 0 && now - e.lastAttempt < 10 * MINUTE
    ensures Takes(book, useTried, draws, now, 1.0, i) <==> 100 * draws[i].randval < LARGE
    ensures 100 * draws[i].randval < LARGE ==> Select(book, useTried, draws, now, 1.0) == Some(draws[i].key)
  {
    var e := book.index[draws[i].key];
    RecentIsHundredth(e, now - 10 * MINUTE, now);
    UnspoiltIsCertain(e.(lastAttempt := now - 10 * MINUTE), now);
    assert Chance(e, now) == 0.01;
    OneInAHundred(draws[i].randval);
    FirstPickDecides(book, useTried, draws, now, i);
  }

  lemma OneInAHundred(n: nat)
    ensures n as real < 1.0 * 0.01 * LARGE as real <==> 100 * n < LARGE
  {
  }

  /** GetAddress picks the tried table on a coin toss, or when it is the only one with addresses. */
  predicate UsesTried(book: Book, coin: bool) {
    book.nTried > 0 && (book.nNew == 0 || coin)
  }

  /** The chosen table has a bucket with entries. */
  lemma ChosenTableNotEmpty(book: Book, coin: bool)
    requires Inv(book) && book.nTried + book.nNew != 0
    ensures exists b: nat :: TableBucket(book, UsesTried(book, coin), b) != {}
  {
    if UsesTried(book, coin) {
      var k := SomeElement(TriedKeys(book.index));
      var t, i :| InTried(book.tried, t, i) && book.tried[t][i] == k;
      assert book.tried[t][i] in TableBucket(book, true, t);
    } else {
      var k := SomeElement(NewKeys(book.index));
      var b := SomeElement(BucketsOf(book.buckets, k));
      assert k in TableBucket(book, false, b);
    }
  }

  /**
   * GetAddress over the draws of one call.  With addresses present it returns an indexed address of
   * the chosen table as soon as n + 1 draws have hit a bucket with entries, where 1.2^n times the
   * least chance is at least one.
   */
  lemma GetAddressReturns(book: Book, coin: bool, draws: seq<Draw>, now: Time, least: real, n: nat)
    requires Inv(book) && ValidDraws(book, UsesTried(book, coin), draws)
    requires least > 0.0 && Power(1.2, n) * least >= 1.0
    requires forall k :: k in book.index ==> Chance(book.index[k], now) >= least
    requires Picks(book, UsesTried(book, coin), draws) >= n + 1
    ensures var r := Select(book, UsesTried(book, coin), draws, now, 1.0);
      r.Some? && r.value in book.index && book.index[r.value].tried == UsesTried(book, coin)
  {
    SelectWithin(book, UsesTried(book, coin), draws, now, 1.0, least, n);
    SelectedIsIndexed(book, UsesTried(book, coin), draws, now, 1.0);
  }

  /** GetAddress; null when there is nothing to choose from, or when the draws run out first. */
  method GetAddress(am: AddrManager, coin: bool, draws: seq<Draw>, now: Time) returns (r: KnownAddress?)
    requires am.Linked() && ValidDraws(am.Abs(), UsesTried(am.Abs(), coin), draws)
    ensures am.nTried + am.nNew == 0 ==> r == null
    ensures am.nTried + am.nNew != 0 ==>
              match Select(am.Abs(), UsesTried(am.Abs(), coin), draws, now, 1.0)
              case None => r == null
              case Some(k) => k in am.addrIndex && r == am.addrIndex[k]
    ensures Inv(am.Abs()) && r != null ==>
              r.tried == if am.nNew > 0 && am.nTried > 0 then coin else am.nTried > 0
  {
    if am.nTried + am.nNew == 0 {
      return null;
    }
    var useTried := am.nTried > 0 && (am.nNew == 0 || coin);
    r := Choose(am, useTried, draws, now, am.Abs());
    if Inv(am.Abs()) {
      SelectedIsIndexed(am.Abs(), useTried, draws, now, 1.0);
      CountersNotNegative(am.Abs());
    }
  }

  lemma CountersNotNegative(book: Book)
    requires Inv(book)
    ensures book.nNew >= 0 && book.nTried >= 0
  {
  }

  /** The loop of GetAddress over one table. */
  method Choose(am: AddrManager, useTried: bool, draws: seq<Draw>, now: Time, ghost book: Book)
    returns (r: KnownAddress?)
    requires am.Linked() && am.Abs() == book && ValidDraws(book, useTried, draws)
    ensures match Select(book, useTried, draws, now, 1.0)
            case None => r == null
            case Some(k) => k in am.addrIndex && r == am.addrIndex[k]
  {
    ghost var goal := Select(book, useTried, draws, now, 1.0);
    var factor := 1.0;
    assert draws[0..] == draws;
    for i := 0 to |draws|
      invariant Select(book, useTried, draws[i..], now, factor) == goal
    {
      SelectHead(book, useTried, draws, i, now, factor);
      var hit, ka := TryDraw(am, useTried, draws[i], factor, now, book);
      if hit {
        if ka != null {
          return ka;
        }
        factor := factor * 1.2;
      }
    }
    return null;
  }

  lemma SelectHead(book: Book, useTried: bool, draws: seq<Draw>, i: nat, now: Time, factor: real)
    requires i < |draws|
    ensures Select(book, useTried, draws[i..], now, factor) ==
            if TableBucket(book, useTried, draws[i].bucket) == {}
            then Select(book, useTried, draws[i + 1..], now, factor)
            else if Accepts(book, now, factor, draws[i]) then Some(draws[i].key)
            else Select(book, useTried, draws[i + 1..], now, factor * 1.2)
  {
    assert draws[i..][1..] == draws[i + 1..];
  }

  /** One round: whether the bucket had entries, and the address if it was accepted. */
  method TryDraw(am: AddrManager, useTried: bool, d: Draw, factor: real, now: Time, ghost book: Book)
    returns (hit: bool, ka: KnownAddress?)
    requires am.Linked() && am.Abs() == book && ValidDraw(book, useTried, d)
    ensures hit <==> TableBucket(book, useTried, d.bucket) != {}
    ensures ka != null <==> hit && Accepts(book, now, factor, d)
    ensures ka != null ==> d.key in am.addrIndex && am.addrIndex[d.key] == ka
  {
    BucketEmpty(am, useTried, d.bucket);
    if (if useTried then |am.addrTried[d.bucket]| else |am.addrNew[d.bucket]|) == 0 {
      return false, null;
    }
    ka := am.addrIndex[d.key];
    var chance := ComputeChance(ka, now);
    assert ka.Value() == book.index[d.key];
    if !(d.randval as real < factor * chance * LARGE as real) {
      ka := null;
    }
    return true, ka;
  }

  lemma BucketEmpty(am: AddrManager, useTried: bool, b: nat)
    requires b < (if useTried then |am.addrTried| else |am.addrNew|)
    ensures TableBucket(am.Abs(), useTried, b) == {} <==> (if useTried then |am.addrTried[b]| else |am.addrNew[b]|) == 0
  {
    if useTried {
      var list := am.Abs().tried[b];
      if |list| > 0 {
        assert list[0] in TableBucket(am.Abs(), true, b);
      }
    } else {
      assert |am.addrNew[b]| == |am.addrNew[b].Keys|;
    }
  }
}
