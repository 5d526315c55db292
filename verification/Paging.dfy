/**
 * Paging through the transactions of an address, which come from two sources: the address index in
 * the database and the memory pool (handleSearchRawTransactions and fetchMempoolTxnsForAddress in
 * btcd/rpcserver.go, dbFetchAddrIndexEntries in btcd/blockchain/indexers/addrindex.go).  Counts are
 * 32-bit unsigned, so sums wrap around.
 */
module Paging {
  import opened Options

  type Entry = nat

  /** The entries of one address, level by level. */
  type Levels = seq<seq<Entry>>

  const WRAP := 0x1_0000_0000

  type U32 = x: int | 0 <= x < WRAP

  function Add32(a: U32, b: U32): U32 {
    (a + b) % WRAP
  }

  /** The conversion of a machine integer to 32 bits. */
  function Low32(n: nat): U32 {
    n % WRAP
  }

  // ---------------------------------------------------------------- one list

  function Min(a: int, b: int): int {
    if a < b then a else b
  }

  /** The page that skips `skip` entries and has at most `count`. */
  function Page<T>(s: seq<T>, skip: nat, count: nat): (r: seq<T>)
    ensures |r| == if skip <= |s| then Min(count, |s| - skip) else 0
    ensures forall i :: 0 <= i < |r| ==> r[i] == s[skip + i]
  {
    if skip >= |s| then [] else s[skip..Min(skip + count, |s|)]
  }

  function Reversed<T>(s: seq<T>): (r: seq<T>)
    ensures |r| == |s| && forall i :: 0 <= i < |r| ==> r[i] == s[|s| - 1 - i]
  {
    seq(|s|, i requires 0 <= i < |s| => s[|s| - 1 - i])
  }

  /** A page of two lists in a row is a page of the first and then one of the second. */
  lemma PageOfTwo<T>(a: seq<T>, b: seq<T>, skip: nat, count: nat)
    ensures Page(a + b, skip, count) ==
            Page(a, skip, count) + Page(b, skip - Min(skip, |a|), count - |Page(a, skip, count)|)
  {
    var whole, first := Page(a + b, skip, count), Page(a, skip, count);
    var second := Page(b, skip - Min(skip, |a|), count - |first|);
    assert |whole| == |first| + |second|;
    forall i | 0 <= i < |whole|
      ensures whole[i] == (first + second)[i]
    {
    }
  }

  // ---------------------------------------------------------------- the address index

  /** Levels hold entries oldest first, and each level is newer than the next. */
  function All(levels: Levels): seq<Entry> {
    if levels == [] then [] else levels[|levels| - 1] + All(levels[..|levels| - 1])
  }

  /** A fetch reads levels until one is missing. */
  function Present(bucket: Levels): (r: Levels)
    ensures |r| <= |bucket| && r == bucket[..|r|]
    ensures forall k :: 0 <= k < |r| ==> bucket[k] != []
    ensures |r| < |bucket| ==> bucket[|r|] == []
  {
    if bucket == [] || bucket[0] == [] then []
    else
      var rest := Present(bucket[1..]);
      assert [bucket[0]] + rest == bucket[..|rest| + 1];
      [bucket[0]] + rest
  }

  /** How many levels are read, newest first, until `want` entries are there. */
  function Read(levels: Levels, want: nat, from: nat): (k: nat)
    requires from <= |levels|
    ensures from <= k <= |levels|
    ensures k < |levels| ==> want <= |All(levels[..k])|
    ensures forall j :: from <= j < k ==> |All(levels[..j])| < want
    decreases |levels| - from
  {
    if from < |levels| && |All(levels[..from])| < want then Read(levels, want, from + 1) else from
  }

  ghost predicate EndsWith(all: seq<Entry>, last: seq<Entry>) {
    |last| <= |all| && forall i :: 0 <= i < |last| ==> last[i] == all[|all| - |last| + i]
  }

  /** The levels that were read hold the newest entries. */
  lemma {:induction false} AllEndsWith(levels: Levels, k: nat)
    requires k <= |levels|
    ensures EndsWith(All(levels), All(levels[..k]))
    decreases |levels| - k
  {
    if k == |levels| {
      assert levels[..k] == levels;
    } else {
      AllEndsWith(levels, k + 1);
      assert levels[..k + 1][..k] == levels[..k];
      var more, fewer := All(levels[..k + 1]), All(levels[..k]);
      var all := All(levels);
      assert more == levels[k] + fewer;
      forall i | 0 <= i < |fewer|
        ensures fewer[i] == all[|all| - |fewer| + i]
      {
        assert fewer[i] == more[|levels[k]| + i];
      }
    }
  }

  lemma AllMore(levels: Levels, k: nat)
    requires k < |levels|
    ensures All(levels[..k + 1]) == levels[k] + All(levels[..k])
  {
    assert levels[..k + 1][..k] == levels[..k];
  }

  /** What a fetch has in hand: everything, or in reverse order only as many levels as it thinks it needs. */
  function Loaded(levels: Levels, skip: U32, count: U32, reverse: bool): seq<Entry> {
    if reverse then All(levels[..Read(levels, Add32(skip, count), 0)]) else All(levels)
  }

  function Ordered(s: seq<Entry>, reverse: bool): (r: seq<Entry>)
    ensures |r| == |s|
  {
    if reverse then Reversed(s) else s
  }

  /** The first loop of dbFetchAddrIndexEntries, with lengths counted in entries. */
  method LoadLevels(bucket: Levels, skip: U32, count: U32, reverse: bool) returns (loaded: seq<Entry>)
    ensures loaded == Loaded(Present(bucket), skip, count, reverse)
  {
    loaded := [];
    var level := 0;
    ghost var levels, want := Present(bucket), Add32(skip, count);
    while (!reverse || |loaded| < Add32(skip, count)) && level < |bucket| && bucket[level] != []
      invariant level <= |levels| && loaded == All(levels[..level])
      invariant reverse ==> Read(levels, want, 0) == Read(levels, want, level)
    {
      assert level < |levels|;
      AllMore(levels, level);
      loaded := bucket[level] + loaded;
      level := level + 1;
    }
    assert levels[..|levels|] == levels;
  }

  /** A page of what was loaded, and how many entries were skipped. */
  method DbFetch(bucket: Levels, skip: U32, count: U32, reverse: bool) returns (page: seq<Entry>, skipped: U32)
    requires 12 * |All(Present(bucket))| < WRAP
    ensures page == Page(Ordered(Loaded(Present(bucket), skip, count, reverse), reverse), skip, count)
    ensures skipped == Min(skip, |Loaded(Present(bucket), skip, count, reverse)|)
  {
    var loaded := LoadLevels(bucket, skip, count, reverse);
    LoadedAtMostAll(Present(bucket), skip, count, reverse);
    var n: U32 := |loaded|;
    if skip >= n {
      return [], n;
    }
    if count == 0 {
      return [], skip;
    }
    var toLoad := Min(n - skip, count);
    page := [];
    for i := 0 to toLoad
      invariant |page| == i
      invariant forall k :: 0 <= k < i ==> page[k] == Ordered(loaded, reverse)[skip + k]
    {
      page := page + [if reverse then loaded[n - skip - i - 1] else loaded[skip + i]];
    }
    assert page == Page(Ordered(loaded, reverse), skip, count);
    skipped := skip;
  }

  lemma LoadedAtMostAll(levels: Levels, skip: U32, count: U32, reverse: bool)
    ensures |Loaded(levels, skip, count, reverse)| <= |All(levels)|
  {
    AllEndsWith(levels, if reverse then Read(levels, Add32(skip, count), 0) else |levels|);
  }

  function PageLength(n: nat, skip: nat, count: nat): nat {
    if skip <= n then Min(count, n - skip) else 0
  }

  /** Pages from the end of a list and of its last entries differ only in length. */
  lemma SuffixPages(last: seq<Entry>, all: seq<Entry>, skip: nat, count: nat)
    requires EndsWith(all, last)
    ensures PageLength(|last|, skip, count) == PageLength(|all|, skip, count) ==>
              Page(Reversed(last), skip, count) == Page(Reversed(all), skip, count)
  {
    var short, long := Page(Reversed(last), skip, count), Page(Reversed(all), skip, count);
    forall i | 0 <= i < |short|
      ensures short[i] == long[i]
    {
      assert short[i] == last[|last| - 1 - (skip + i)];
      assert long[i] == all[|all| - 1 - (skip + i)];
    }
  }

  /** The page taken from the levels that are read, and the one meant. */
  function FromLoaded(levels: Levels, skip: U32, count: U32): seq<Entry> {
    Page(Reversed(Loaded(levels, skip, count, true)), skip, count)
  }

  function FromAll(levels: Levels, skip: U32, count: U32): seq<Entry> {
    Page(Reversed(All(levels)), skip, count)
  }

  /** The 32-bit sum wraps, and so entries are missed. */
  predicate ReadsTooLittle(levels: Levels, skip: U32, count: U32) {
    skip + count >= WRAP && skip < |All(levels)| && |Loaded(levels, skip, count, true)| < |All(levels)|
  }

  /** Reading fewer levels gives the page that is meant, unless too little is read: then it is shorter. */
  lemma LoadedIsEnough(levels: Levels, skip: U32, count: U32)
    requires |All(levels)| < WRAP
    ensures !ReadsTooLittle(levels, skip, count) ==> FromLoaded(levels, skip, count) == FromAll(levels, skip, count)
    ensures ReadsTooLittle(levels, skip, count) ==> |FromLoaded(levels, skip, count)| < |FromAll(levels, skip, count)|
  {
    LoadedEndsAll(levels, skip, count);
    SuffixPages(Loaded(levels, skip, count, true), All(levels), skip, count);
    EnoughByLength(|Loaded(levels, skip, count, true)|, |All(levels)|, skip, count);
  }

  lemma LoadedEndsAll(levels: Levels, skip: U32, count: U32)
    ensures EndsWith(All(levels), Loaded(levels, skip, count, true))
    ensures |Loaded(levels, skip, count, true)| < |All(levels)| ==>
              Add32(skip, count) <= |Loaded(levels, skip, count, true)|
  {
    var k := Read(levels, Add32(skip, count), 0);
    AllEndsWith(levels, k);
    assert k == |levels| ==> levels[..k] == levels;
  }

  lemma EnoughByLength(n: nat, total: nat, skip: U32, count: U32)
    requires n <= total < WRAP && (n < total ==> Add32(skip, count) <= n)
    ensures if skip + count >= WRAP && skip < total && n < total
            then PageLength(n, skip, count) < PageLength(total, skip, count)
            else PageLength(n, skip, count) == PageLength(total, skip, count)
  {
    assert skip + count < WRAP ==> Add32(skip, count) == skip + count;
  }

  // ---------------------------------------------------------------- the two sources

  /** The page of the mempool and the number skipped; None is a slice out of bounds, which panics. */
  function FetchMempool(mp: seq<Entry>, skip: U32, count: U32): (r: Option<(seq<Entry>, U32)>)
    requires |mp| < WRAP
    ensures r.None? <==> skip <= |mp| && skip + count >= WRAP
    ensures r.Some? ==> r.value == (Page(mp, skip, count), Min(skip, |mp|))
  {
    if skip > |mp| then Some(([], |mp|))
    else
      var rangeEnd := Min(Add32(skip, count), |mp|);
      if rangeEnd < skip then None else Some((mp[skip..rangeEnd], skip))
  }

  datatype Reply = Nothing | NoTxInfo | Txns(list: seq<Entry>) | Panic

  function Answer(page: seq<Entry>): Reply {
    if page == [] then NoTxInfo else Txns(page)
  }

  /** All transactions of the address, in the order that is paged through. */
  function Everything(levels: Levels, mp: seq<Entry>, reverse: bool): seq<Entry> {
    if reverse then mp + Reversed(All(levels)) else All(levels) + mp
  }

  function CountOf(arg: Option<int>): nat {
    if arg.None? then 100 else if arg.value < 0 then 1 else arg.value
  }

  function SkipOf(arg: Option<int>): nat {
    if arg.None? || arg.value < 0 then 0 else arg.value
  }

  /** The mempool's slice ends before it begins; `count` is the count in 32 bits. */
  predicate Panics(levels: Levels, mp: seq<Entry>, skip: U32, count: U32, reverse: bool) {
    var before := if reverse then 0 else |All(levels)|;
    before <= skip <= before + |mp| && skip - before + count >= WRAP
  }

  /** The mempool is skipped, and too few levels of the index are read. */
  predicate Truncates(levels: Levels, mp: seq<Entry>, skip: U32, count: U32, reverse: bool) {
    reverse && skip > |mp| && ReadsTooLittle(levels, skip - |mp|, count)
  }

  /** A count of 2^32 or more whose low 32 bits are less than what n entries still have to give. */
  predicate CutShort(n: nat, skip: nat, count: nat) {
    count >= WRAP && skip < n && Low32(count) < n - skip
  }

  /** The same for the first of two lists, or for what is then asked of the second. */
  predicate CutsShort(n: nat, m: nat, skip: nat, count: nat) {
    CutShort(n, skip, count) || CutShort(m, skip - Min(skip, n), count - PageLength(n, skip, count))
  }

  predicate CountCut(levels: Levels, mp: seq<Entry>, skip: nat, count: nat, reverse: bool) {
    if reverse then CutsShort(|mp|, |All(levels)|, skip, count) else CutsShort(|All(levels)|, |mp|, skip, count)
  }

  lemma PageCut(s: seq<Entry>, skip: nat, count: nat)
    ensures CutShort(|s|, skip, count) ==> |Page(s, skip, Low32(count))| < |Page(s, skip, count)|
    ensures !CutShort(|s|, skip, count) && |s| <= WRAP ==> Page(s, skip, Low32(count)) == Page(s, skip, count)
  {
    var cut, whole := Page(s, skip, Low32(count)), Page(s, skip, count);
    assert count < WRAP ==> Low32(count) == count;
    assert Low32(count) <= count;
    assert forall i :: 0 <= i < |cut| ==> cut[i] == whole[i];
  }

  /** What is collected from two lists when the counts are cut to 32 bits. */
  function TwoParts(a: seq<Entry>, second: seq<Entry>, skip: U32, count: nat): seq<Entry> {
    var first := Page(a, skip, Low32(count));
    first + if |first| < count then second else []
  }

  /** A reply that is too short, or else the wanted page. */
  ghost predicate Judged(reply: seq<Entry>, wanted: seq<Entry>, short: bool) {
    if short then |reply| < |wanted| else reply == wanted
  }

  /** The first list gives too little: the second cannot make up for it. */
  lemma FirstCut(a: seq<Entry>, b: seq<Entry>, second: seq<Entry>, skip: U32, count: nat)
    requires |b| < WRAP && |second| <= |b| && CutShort(|a|, skip, count)
    ensures Judged(TwoParts(a, second, skip, count), Page(a + b, skip, count), true)
  {
    assert count >= WRAP + Low32(count);
  }

  /** What is still asked of the second list. */
  function Rest(n: nat, skip: nat, count: nat): nat {
    count - PageLength(n, skip, Low32(count))
  }

  lemma RestIs(n: nat, skip: nat, count: nat)
    requires n <= WRAP && !CutShort(n, skip, count)
    ensures Rest(n, skip, count) == count - PageLength(n, skip, count)
  {
    assert count < WRAP ==> Low32(count) == count;
  }

  /** The first list gives its part: then all depends on the second. */
  lemma FirstWhole(a: seq<Entry>, b: seq<Entry>, second: seq<Entry>, skip: U32, count: nat, short: bool)
    requires |a| <= WRAP && !CutShort(|a|, skip, count)
    requires Judged(second, Page(b, skip - Min(skip, |a|), Rest(|a|, skip, count)), short)
    ensures Judged(TwoParts(a, second, skip, count), Page(a + b, skip, count), short)
  {
    RestIs(|a|, skip, count);
    PageCut(a, skip, count);
    PageOfTwo(a, b, skip, count);
  }

  /** Both cases, for any second part. */
  lemma TwoPartsJudged(a: seq<Entry>, b: seq<Entry>, second: seq<Entry>, skip: U32, count: nat, short: bool)
    requires |a| <= WRAP && |b| < WRAP && |second| <= |b|
    requires Judged(second, Page(b, skip - Min(skip, |a|), Rest(|a|, skip, count)), short)
    ensures Judged(TwoParts(a, second, skip, count), Page(a + b, skip, count), CutShort(|a|, skip, count) || short)
  {
    if CutShort(|a|, skip, count) {
      FirstCut(a, b, second, skip, count);
    } else {
      FirstWhole(a, b, second, skip, count, short);
    }
  }

  lemma CutsShortIs(n: nat, m: nat, skip: nat, count: nat)
    requires n <= WRAP
    ensures CutsShort(n, m, skip, count) <==>
            CutShort(n, skip, count) || CutShort(m, skip - Min(skip, n), Rest(n, skip, count))
  {
    if !CutShort(n, skip, count) {
      RestIs(n, skip, count);
    }
  }

  // ---------------------------------------------------------------- forward

  function CollectedForward(levels: Levels, mp: seq<Entry>, skip: U32, count: nat): seq<Entry> {
    var n := |All(levels)|;
    TwoParts(All(levels), Page(mp, skip - Min(skip, n), Low32(Rest(n, skip, count))), skip, count)
  }

  /** Forward, the page is right unless the count was cut. */
  lemma ForwardIsPage(levels: Levels, mp: seq<Entry>, skip: U32, count: nat)
    requires |All(levels)| < WRAP && |mp| < WRAP
    ensures Judged(CollectedForward(levels, mp, skip, count), Page(Everything(levels, mp, false), skip, count),
                   CountCut(levels, mp, skip, count, false))
  {
    var n := |All(levels)|;
    var from, rest := skip - Min(skip, n), Rest(n, skip, count);
    PageCut(mp, from, rest);
    TwoPartsJudged(All(levels), mp, Page(mp, from, Low32(rest)), skip, count, CutShort(|mp|, from, rest));
    CutsShortIs(n, |mp|, skip, count);
  }

  // ---------------------------------------------------------------- reverse

  function CollectedReverse(levels: Levels, mp: seq<Entry>, skip: U32, count: nat): seq<Entry> {
    var n := |mp|;
    TwoParts(mp, FromLoaded(levels, skip - Min(skip, n), Low32(Rest(n, skip, count))), skip, count)
  }

  /** What the levels give, with the count cut to 32 bits, against what they should. */
  lemma FromLoadedIs(levels: Levels, from: U32, rest: nat)
    requires |All(levels)| < WRAP
    ensures Judged(FromLoaded(levels, from, Low32(rest)), Page(Reversed(All(levels)), from, rest),
                   ReadsTooLittle(levels, from, Low32(rest)) || CutShort(|All(levels)|, from, rest))
  {
    LoadedIsEnough(levels, from, Low32(rest));
    PageCut(Reversed(All(levels)), from, rest);
  }

  lemma TruncatesIs(levels: Levels, mp: seq<Entry>, skip: U32, count: nat)
    ensures Truncates(levels, mp, skip, Low32(count), true) <==>
            ReadsTooLittle(levels, skip - Min(skip, |mp|), Low32(Rest(|mp|, skip, count)))
  {
    if skip > |mp| {
      assert Rest(|mp|, skip, count) == count;
    }
  }

  /** In reverse order, the page is right unless the levels are truncated or the count was cut. */
  lemma ReverseIsPage(levels: Levels, mp: seq<Entry>, skip: U32, count: nat)
    requires |All(levels)| < WRAP && |mp| < WRAP
    ensures Judged(CollectedReverse(levels, mp, skip, count), Page(Everything(levels, mp, true), skip, count),
                   Truncates(levels, mp, skip, Low32(count), true) || CountCut(levels, mp, skip, count, true))
  {
    var from, rest := skip - Min(skip, |mp|), Rest(|mp|, skip, count);
    FromLoadedIs(levels, from, rest);
    LoadedAtMostAll(levels, from, Low32(rest), true);
    TwoPartsJudged(mp, Reversed(All(levels)), FromLoaded(levels, from, Low32(rest)), skip, count,
                   ReadsTooLittle(levels, from, Low32(rest)) || CutShort(|All(levels)|, from, rest));
    CutsShortIs(|mp|, |All(levels)|, skip, count);
    TruncatesIs(levels, mp, skip, count);
  }

  // ---------------------------------------------------------------- the request

  function Collected(levels: Levels, mp: seq<Entry>, skip: U32, count: nat, reverse: bool): seq<Entry> {
    if reverse then CollectedReverse(levels, mp, skip, count) else CollectedForward(levels, mp, skip, count)
  }

  lemma AnswersDiffer(a: seq<Entry>, b: seq<Entry>, short: bool)
    requires Judged(a, b, short)
    ensures Answer(a) == Answer(b) <==> !short
  {
  }

  /** For a skip of 32 bits the right page is collected exactly if no level is missed and no count cut. */
  lemma CollectedIsPage(levels: Levels, mp: seq<Entry>, skip: U32, count: nat, reverse: bool)
    requires |All(levels)| < WRAP && |mp| < WRAP
    ensures Answer(Collected(levels, mp, skip, count, reverse)) ==
            Answer(Page(Everything(levels, mp, reverse), skip, count))
            <==> !Truncates(levels, mp, skip, Low32(count), reverse) && !CountCut(levels, mp, skip, count, reverse)
  {
    var short := Truncates(levels, mp, skip, Low32(count), reverse) || CountCut(levels, mp, skip, count, reverse);
    if reverse {
      ReverseIsPage(levels, mp, skip, count);
    } else {
      ForwardIsPage(levels, mp, skip, count);
    }
    AnswersDiffer(Collected(levels, mp, skip, count, reverse), Page(Everything(levels, mp, reverse), skip, count),
                  short);
  }

  /** No entry is found: 0 is asked for, or both sources are skipped as far as they are read. */
  predicate FindsNothing(levels: Levels, mp: seq<Entry>, skip: U32, count: U32, reverse: bool) {
    || count == 0
    || (if reverse then skip >= |mp| && skip - |mp| >= |Loaded(levels, skip - |mp|, count, true)|
        else skip >= |All(levels)| + |mp|)
  }

  lemma CollectedNothing(levels: Levels, mp: seq<Entry>, skip: U32, count: nat, reverse: bool)
    requires count > 0
    ensures Collected(levels, mp, skip, count, reverse) == [] <==>
            FindsNothing(levels, mp, skip, Low32(count), reverse)
  {
    var n := if reverse then |mp| else |All(levels)|;
    if skip >= n || Low32(count) == 0 {
      assert Rest(n, skip, count) == count;
    }
  }

  /** Mempool first, then the database from the newest entry on. */
  method SearchReverse(bucket: Levels, mp: seq<Entry>, skip: U32, count: nat) returns (r: Reply)
    requires 12 * |All(Present(bucket))| < WRAP && |mp| < WRAP && count > 0
    ensures r == if Panics(Present(bucket), mp, skip, Low32(count), true) then Panic
                 else Answer(CollectedReverse(Present(bucket), mp, skip, count))
  {
    var first := FetchMempool(mp, skip, Low32(count));
    if first.None? {
      return Panic;
    }
    var txns, skipped := first.value.0, first.value.1;
    assert count - |txns| == Rest(|mp|, skip, count);
    if |txns| < count {
      var more, dbSkipped := DbFetch(bucket, skip - skipped, Low32(count - |txns|), true);
      txns := txns + more;
    }
    assert txns == CollectedReverse(Present(bucket), mp, skip, count);
    r := Answer(txns);
  }

  /** The database from the oldest entry on, then the mempool. */
  method SearchForward(bucket: Levels, mp: seq<Entry>, skip: U32, count: nat) returns (r: Reply)
    requires 12 * |All(Present(bucket))| < WRAP && |mp| < WRAP && count > 0
    ensures r == if Panics(Present(bucket), mp, skip, Low32(count), false) then Panic
                 else Answer(CollectedForward(Present(bucket), mp, skip, count))
  {
    var txns, skipped := DbFetch(bucket, skip, Low32(count), false);
    if |txns| < count {
      var more := FetchMempool(mp, skip - skipped, Low32(count - |txns|));
      if more.None? {
        return Panic;
      }
      txns := txns + more.value.0;
    }
    r := Answer(txns);
  }

  /**
   * What the request gets: nothing for a count of 0, a panic, or what was collected.  The buffer for the
   * reply is made first, for the whole count; `most` is the largest count for which that succeeds.
   */
  function Searched(levels: Levels, mp: seq<Entry>, skip: nat, count: nat, reverse: bool, most: nat): Reply {
    if count == 0 then Nothing
    else if count > most || Panics(levels, mp, Low32(skip), Low32(count), reverse) then Panic
    else Answer(Collected(levels, mp, Low32(skip), count, reverse))
  }

  /** What the request should get. */
  function Wanted(levels: Levels, mp: seq<Entry>, skip: nat, count: nat, reverse: bool): Reply {
    if count == 0 then Nothing else Answer(Page(Everything(levels, mp, reverse), skip, count))
  }

  /** Why a request with a skip of 32 bits goes wrong. */
  predicate GoesWrong(levels: Levels, mp: seq<Entry>, skip: U32, count: nat, reverse: bool, most: nat) {
    || count > most
    || Panics(levels, mp, skip, Low32(count), reverse)
    || Truncates(levels, mp, skip, Low32(count), reverse)
    || CountCut(levels, mp, skip, count, reverse)
  }

  /**
   * For a skip below 2^32 the reply is the requested page of the two lists in a row if and only if the
   * buffer can be made, no slice ends before it begins, no level is missed and the count is not cut.
   */
  lemma SearchIsRight(levels: Levels, mp: seq<Entry>, skip: U32, count: nat, reverse: bool, most: nat)
    requires |All(levels)| < WRAP && |mp| < WRAP && count > 0
    ensures Searched(levels, mp, skip, count, reverse, most) == Wanted(levels, mp, skip, count, reverse)
            <==> !GoesWrong(levels, mp, skip, count, reverse, most)
  {
    assert Low32(skip) == skip;
    CollectedIsPage(levels, mp, skip, count, reverse);
    if count > most || Panics(levels, mp, skip, Low32(count), reverse) {
      assert Searched(levels, mp, skip, count, reverse, most) == Panic;
    } else {
      assert Searched(levels, mp, skip, count, reverse, most) == Answer(Collected(levels, mp, skip, count, reverse));
    }
  }

  /**
   * A larger skip loses its upper bits.  When it leaves out all there is, the reply says so if and only
   * if the buffer can be made and what remains of the skip finds nothing.
   */
  lemma LargeSkipIsRight(levels: Levels, mp: seq<Entry>, skip: nat, count: nat, reverse: bool, most: nat)
    requires skip >= WRAP && skip >= |Everything(levels, mp, reverse)| && count > 0
    ensures Wanted(levels, mp, skip, count, reverse) == NoTxInfo
    ensures Searched(levels, mp, skip, count, reverse, most) == Wanted(levels, mp, skip, count, reverse) <==>
            && count <= most
            && !Panics(levels, mp, Low32(skip), Low32(count), reverse)
            && FindsNothing(levels, mp, Low32(skip), Low32(count), reverse)
  {
    CollectedNothing(levels, mp, Low32(skip), count, reverse);
  }

  lemma SuffixPageBegins(last: seq<Entry>, all: seq<Entry>, from: nat, rest: nat)
    requires EndsWith(all, last) && |Page(Reversed(last), from, rest)| > 0
    ensures from < |all| && Page(Reversed(last), from, rest)[0] == Reversed(all)[from]
  {
    assert Reversed(last)[from] == last[|last| - 1 - from];
    assert Reversed(all)[from] == all[|all| - 1 - from];
  }

  /** Two parts begin where the page of the two lists does. */
  lemma TwoPartsBegin(a: seq<Entry>, b: seq<Entry>, second: seq<Entry>, skip: U32, count: nat)
    requires |TwoParts(a, second, skip, count)| > 0 && (Low32(count) == 0 ==> |second| == 0)
    requires |second| > 0 ==> skip - Min(skip, |a|) < |b| && second[0] == b[skip - Min(skip, |a|)]
    ensures skip < |a + b| && TwoParts(a, second, skip, count)[0] == (a + b)[skip]
  {
    var first := Page(a, skip, Low32(count));
    if |first| > 0 {
      assert TwoParts(a, second, skip, count)[0] == first[0];
    } else {
      assert skip >= |a|;
    }
  }

  lemma SecondIsEmpty(n: nat, skip: nat, count: nat)
    requires Low32(count) == 0
    ensures Low32(Rest(n, skip, count)) == 0
  {
  }

  lemma ForwardBegins(levels: Levels, mp: seq<Entry>, skip: U32, count: nat)
    requires |CollectedForward(levels, mp, skip, count)| > 0
    ensures skip < |All(levels) + mp| && CollectedForward(levels, mp, skip, count)[0] == (All(levels) + mp)[skip]
  {
    var n := |All(levels)|;
    if Low32(count) == 0 {
      SecondIsEmpty(n, skip, count);
    }
    TwoPartsBegin(All(levels), mp, Page(mp, skip - Min(skip, n), Low32(Rest(n, skip, count))), skip, count);
  }

  lemma ReverseBegins(levels: Levels, mp: seq<Entry>, skip: U32, count: nat)
    requires |CollectedReverse(levels, mp, skip, count)| > 0
    ensures skip < |mp + Reversed(All(levels))|
    ensures CollectedReverse(levels, mp, skip, count)[0] == (mp + Reversed(All(levels)))[skip]
  {
    var from, rest := skip - Min(skip, |mp|), Low32(Rest(|mp|, skip, count));
    var second := FromLoaded(levels, from, rest);
    if Low32(count) == 0 {
      SecondIsEmpty(|mp|, skip, count);
    }
    if |second| > 0 {
      LoadedEndsAll(levels, from, rest);
      SuffixPageBegins(Loaded(levels, from, rest, true), All(levels), from, rest);
    }
    TwoPartsBegin(mp, Reversed(All(levels)), second, skip, count);
  }

  /** A larger skip that is still within the lists gives entries from elsewhere, if any: never the right page. */
  lemma LargeSkipInsideIsWrong(levels: Levels, mp: seq<Entry>, skip: nat, count: nat, reverse: bool, most: nat)
    requires WRAP <= skip < |Everything(levels, mp, reverse)| && count > 0
    requires Everything(levels, mp, reverse)[Low32(skip)] != Everything(levels, mp, reverse)[skip]
    ensures Searched(levels, mp, skip, count, reverse, most) != Wanted(levels, mp, skip, count, reverse)
  {
    var reply := Collected(levels, mp, Low32(skip), count, reverse);
    var wanted := Page(Everything(levels, mp, reverse), skip, count);
    assert |wanted| > 0 && wanted[0] == Everything(levels, mp, reverse)[skip];
    if |reply| > 0 {
      if reverse {
        ReverseBegins(levels, mp, Low32(skip), count);
      } else {
        ForwardBegins(levels, mp, Low32(skip), count);
      }
      assert reply[0] != wanted[0];
    }
  }

  /** The paging of searchrawtransactions. */
  method SearchRawTransactions(bucket: Levels, mp: seq<Entry>, skipArg: Option<int>, countArg: Option<int>,
                               reverse: bool, most: nat)
    returns (r: Reply)
    requires 12 * |All(Present(bucket))| < WRAP && |mp| < WRAP
    ensures r == Searched(Present(bucket), mp, SkipOf(skipArg), CountOf(countArg), reverse, most)
  {
    var skip, count := SkipOf(skipArg), CountOf(countArg);
    if count == 0 {
      return Nothing;
    }
    if count > most {
      return Panic;
    }
    if reverse {
      r := SearchReverse(bucket, mp, Low32(skip), count);
    } else {
      r := SearchForward(bucket, mp, Low32(skip), count);
    }
  }

  /** With skip and count together below 2^32 only the buffer can fail. */
  lemma NoWrapNoHarm(levels: Levels, mp: seq<Entry>, skip: U32, count: U32, reverse: bool, most: nat)
    requires skip + count < WRAP
    ensures GoesWrong(levels, mp, skip, count, reverse, most) <==> count > most
  {
  }

  /** Without a skip, or with a senseless one, paging begins at the first; without a count it gives a hundred. */
  lemma DefaultPage(levels: Levels, mp: seq<Entry>, skipArg: Option<int>, countArg: Option<int>, reverse: bool,
                    most: nat)
    requires |All(levels)| < WRAP && |mp| < WRAP && most >= 100
    requires (skipArg.Some? ==> skipArg.value < 0) && (countArg.Some? ==> countArg.value < 0)
    ensures var all := Everything(levels, mp, reverse);
            var n := if all == [] then 0 else if countArg.Some? then 1 else Min(100, |all|);
            Searched(levels, mp, SkipOf(skipArg), CountOf(countArg), reverse, most) ==
            if n == 0 then NoTxInfo else Txns(all[..n])
  {
    var all, count := Everything(levels, mp, reverse), CountOf(countArg);
    NoWrapNoHarm(levels, mp, 0, count, reverse, most);
    SearchIsRight(levels, mp, 0, count, reverse, most);
    assert Page(all, 0, count) == all[..Min(count, |all|)];
  }

  /** Skipping one transaction and asking for 2^32 - 1 more panics, although there is one to give. */
  lemma SkipOneAskForAll(most: nat)
    ensures Searched([], [7, 8], 1, WRAP - 1, false, most) == Panic
    ensures Wanted([], [7, 8], 1, WRAP - 1, false) == Txns([8])
  {
    assert Everything([], [7, 8], false) == [7, 8];
    assert Page([7, 8], 1, WRAP - 1) == [8];
  }

  /** Asking for 2^32 transactions gives none, where there is memory for them. */
  lemma AskForTooMany(most: nat)
    requires most >= WRAP
    ensures Searched([], [7], 0, WRAP, false, most) == NoTxInfo && Wanted([], [7], 0, WRAP, false) == Txns([7])
  {
    assert Everything([], [7], false) == [7];
    assert Page([7], 0, WRAP) == [7];
    CollectedNothing([], [7], 0, WRAP, false);
  }

  /** Skipping 2^32 of one transaction still gives it. */
  lemma SkipTooMany(most: nat)
    requires most >= 100
    ensures Searched([], [7], WRAP, 100, false, most) == Txns([7]) && Wanted([], [7], WRAP, 100, false) == NoTxInfo
    ensures !GoesWrong([], [7], Low32(WRAP), 100, false, most)
  {
    assert Everything([], [7], false) == [7];
    assert Page([7], 0, 100) == [7];
    ForwardIsPage([], [7], 0, 100);
  }
}
