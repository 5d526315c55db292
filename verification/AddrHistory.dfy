/**
 * What an entry of the address manager tells of the calls so far, over every run from New
 * (btcd/addrmgr/addrmanager.go): the failed attempts, the times of the last attempt and success, and
 * the services.
 */
module AddrHistory {
  import opened AddrBook
  import opened AddrSteps
  import opened AddrEffects

  // ---------------------------------------------------------------- one call

  predicate Attempts(op: Op, k: Key) {
    op.OpAttempt? && op.key == k
  }

  predicate Succeeds(op: Op, k: Key) {
    op.OpGood? && op.key == k
  }

  /** What a call that keeps address k does to its entry. */
  ghost predicate EntryAfter(e: Entry, op: Op, k: Key, e': Entry) {
    && e'.attempts == (if Attempts(op, k) then e.attempts + 1 else if Succeeds(op, k) then 0 else e.attempts)
    && e'.lastAttempt == (if Attempts(op, k) || Succeeds(op, k) then op.now else e.lastAttempt)
    && e'.lastSuccess == (if Succeeds(op, k) then op.now else e.lastSuccess)
    && e'.srcAddr == e.srcAddr && e'.na.key == e.na.key
    && (if op.OpSetServices? && op.key == k then e'.na.services == op.services
        else if op.OpAdd? && op.routable && op.na.key == k then e'.na.services == e.na.services + op.na.services
        else e'.na.services == e.na.services)
    && (op.OpConnected? && op.key == k ==>
          e'.na.timestamp == if op.now - e.na.timestamp > 20 * MINUTE then op.now else e.na.timestamp)
    && (!op.OpAdd? && !op.OpConnected? ==> e'.na.timestamp == e.na.timestamp)
  }

  lemma GoodStep(book: Book, op: Op, k: Key)
    requires Inv(book) && op.OpGood? && k in book.index
    ensures var after := Good(book, op.key, op.now, op.hashing);
            k in after.index && EntryAfter(book.index[k], op, k, after.index[k])
  {
    GoodEntries(book, op.key, op.now, op.hashing, k);
  }

  lemma AddStep(book: Book, op: Op, k: Key)
    requires Inv(book) && op.OpAdd? && Possible(book, op) && k in book.index && k in Step(book, op).index
    ensures EntryAfter(book.index[k], op, k, Step(book, op).index[k])
  {
    if op.routable && op.na.key == k {
      AddedEntry(book, op.na, op.src, op.lucky, op.bucket, op.now, op.dropped);
    } else if op.routable {
      AddEffect(book, op.na, op.src, op.lucky, op.bucket, op.now, op.dropped);
    }
  }

  lemma EntryStep(book: Book, op: Op, k: Key)
    requires Inv(book) && Possible(book, op) && k in book.index && k in Step(book, op).index
    ensures EntryAfter(book.index[k], op, k, Step(book, op).index[k])
  {
    if op.OpGood? {
      GoodStep(book, op, k);
    } else if op.OpAdd? {
      AddStep(book, op, k);
    }
  }

  /** An address comes into the index only by being added, with nothing against it. */
  lemma EntersFresh(book: Book, op: Op, k: Key)
    requires Inv(book) && Possible(book, op) && k !in book.index && k in Step(book, op).index
    ensures op.OpAdd? && op.routable && op.na.key == k
    ensures Step(book, op).index[k] == Entry(op.na, op.src, 0, 0, 0, false, 1)
  {
    if op.OpGood? && op.key in book.index {
      GoodEntries(book, op.key, op.now, op.hashing, op.key);
    } else if op.OpAdd? && op.routable {
      AddEffect(book, op.na, op.src, op.lucky, op.bucket, op.now, op.dropped);
      AddedEntry(book, op.na, op.src, op.lucky, op.bucket, op.now, op.dropped);
    }
  }

  // ---------------------------------------------------------------- runs

  /** k is in the index throughout. */
  ghost predicate Stays(books: seq<Book>, k: Key, from: nat, n: nat) {
    from <= n < |books| && forall i :: from <= i <= n ==> k in books[i].index
  }

  /** The calls of Attempt for k. */
  function AttemptCalls(ops: seq<Op>, k: Key): nat {
    if ops == [] then 0
    else AttemptCalls(ops[..|ops| - 1], k) + if Attempts(ops[|ops| - 1], k) then 1 else 0
  }

  lemma RunStep(books: seq<Book>, ops: seq<Op>, k: Key, n: nat)
    requires IsRun(books, ops) && n < |ops| && k in books[n].index && k in books[n + 1].index
    ensures EntryAfter(books[n].index[k], ops[n], k, books[n + 1].index[k])
  {
    RunKeepsInv(books, ops, n);
    assert Follows(books[n], ops[n], books[n + 1]);
    EntryStep(books[n], ops[n], k);
  }

  ghost predicate NoSuccess(ops: seq<Op>, k: Key, from: nat, n: nat) {
    n <= |ops| && forall i :: from <= i < n ==> !Succeeds(ops[i], k)
  }

  lemma {:induction false} AttemptsAddUp(books: seq<Book>, ops: seq<Op>, k: Key, from: nat, n: nat)
    requires IsRun(books, ops) && Stays(books, k, from, n) && NoSuccess(ops, k, from, n)
    ensures books[n].index[k].attempts == books[from].index[k].attempts + AttemptCalls(ops[from..n], k)
    decreases n
  {
    if from < n {
      AttemptsAddUp(books, ops, k, from, n - 1);
      assert ops[from..n][..n - 1 - from] == ops[from..n - 1];
      RunStep(books, ops, k, n - 1);
    }
  }

  /** Call i began the count: Good for k, or the call by which k came into the index. */
  ghost predicate Begins(books: seq<Book>, ops: seq<Op>, k: Key, i: nat)
    requires IsRun(books, ops) && i < |ops|
  {
    k in books[i + 1].index && (k in books[i].index ==> Succeeds(ops[i], k))
  }

  /** The attempts of an address are the calls of Attempt since the last Good, or since it was added. */
  lemma AttemptsAreCounted(books: seq<Book>, ops: seq<Op>, k: Key, i: nat, n: nat)
    requires IsRun(books, ops) && i < n < |books| && Begins(books, ops, k, i)
    requires Stays(books, k, i + 1, n) && NoSuccess(ops, k, i + 1, n)
    ensures books[n].index[k].attempts == AttemptCalls(ops[i + 1..n], k)
  {
    AttemptsAddUp(books, ops, k, i + 1, n);
    RunKeepsInv(books, ops, i);
    assert Follows(books[i], ops[i], books[i + 1]);
    if k in books[i].index {
      RunStep(books, ops, k, i);
    } else {
      EntersFresh(books[i], ops[i], k);
    }
  }

  /** Every entry has a call that began its count. */
  lemma {:induction false} SomethingBegan(books: seq<Book>, ops: seq<Op>, k: Key, n: nat) returns (i: nat)
    requires IsRun(books, ops) && n < |books| && k in books[n].index
    ensures i < n && Begins(books, ops, k, i) && Stays(books, k, i + 1, n) && NoSuccess(ops, k, i + 1, n)
  {
    if k in books[n - 1].index && !Succeeds(ops[n - 1], k) {
      i := SomethingBegan(books, ops, k, n - 1);
    } else {
      i := n - 1;
    }
  }

  /** No call after i, before n, is an Attempt or a Good for k. */
  ghost predicate Untouched(ops: seq<Op>, k: Key, i: nat, n: nat) {
    n <= |ops| && forall j :: i < j < n ==> !Attempts(ops[j], k) && !Succeeds(ops[j], k)
  }

  /** The last attempt on record is the last call of Attempt or Good. */
  lemma {:induction false} LastAttemptIs(books: seq<Book>, ops: seq<Op>, k: Key, i: nat, n: nat)
    requires IsRun(books, ops) && i < n && Stays(books, k, i, n) && Untouched(ops, k, i, n)
    requires Attempts(ops[i], k) || Succeeds(ops[i], k)
    ensures books[n].index[k].lastAttempt == ops[i].now
    decreases n
  {
    RunStep(books, ops, k, n - 1);
    if i < n - 1 {
      LastAttemptIs(books, ops, k, i, n - 1);
    }
  }

  /** The last success on record is the last call of Good. */
  lemma {:induction false} LastSuccessIs(books: seq<Book>, ops: seq<Op>, k: Key, i: nat, n: nat)
    requires IsRun(books, ops) && i < n && Stays(books, k, i, n) && NoSuccess(ops, k, i + 1, n)
    requires Succeeds(ops[i], k)
    ensures books[n].index[k].lastSuccess == ops[i].now
    decreases n
  {
    RunStep(books, ops, k, n - 1);
    if i < n - 1 {
      LastSuccessIs(books, ops, k, i, n - 1);
    }
  }

  /** Services are never lost while nobody sets them. */
  lemma {:induction false} ServicesGrow(books: seq<Book>, ops: seq<Op>, k: Key, from: nat, n: nat)
    requires IsRun(books, ops) && Stays(books, k, from, n)
    requires forall j :: from <= j < n ==> !(ops[j].OpSetServices? && ops[j].key == k)
    ensures books[from].index[k].na.services <= books[n].index[k].na.services
    decreases n
  {
    if from < n {
      ServicesGrow(books, ops, k, from, n - 1);
      RunStep(books, ops, k, n - 1);
    }
  }
}
