/** The in-memory transaction repository: an insertion-ordered sequence of
    transactions. Every operation is a pure function of the current store;
    the mutating ones return the store that follows. */
module InMemoryRepository {
  import opened Results
  import opened TransactionEntity

  /** The repository's private array of transactions. */
  datatype Store = Store(transactions: seq<Transaction>)

  /** The store a freshly created repository starts with. */
  const EmptyStore: Store := Store([])

  /** The stored transactions, first saved first. */
  function FindAll(s: Store): (all: seq<Transaction>)
    ensures |all| == |s.transactions|
    ensures forall i :: 0 <= i < |all| ==> all[i] == s.transactions[i]
  {
    s.transactions
  }

  /** The number of stored transactions. */
  function Count(s: Store): (n: nat)
    ensures n == |FindAll(s)|
  {
    |s.transactions|
  }

  /** Appends `t` as it is (a missing id stays missing) and hands back `t` itself. */
  function Save(s: Store, t: Transaction): (r: (Store, Transaction))
    ensures Count(r.0) == Count(s) + 1
    ensures FindAll(r.0)[..Count(s)] == FindAll(s)
    ensures FindAll(r.0)[Count(s)] == t
    ensures r.1 == t
  {
    (Store(s.transactions + [t]), t)
  }

  /** Clears the store, whatever it held. */
  function DeleteAll(s: Store): (r: Store)
    ensures Count(r) == 0
    ensures FindAll(r) == []
  {
    EmptyStore
  }

  /** Whether the timestamp lies in the closed interval [start, end]. */
  predicate InRange(t: Transaction, start: Millis, end: Millis)
  {
    start <= t.timestamp <= end
  }

  /** `a` is `b` with some elements dropped and the rest in their original order. */
  ghost predicate Subsequence<T>(a: seq<T>, b: seq<T>)
    decreases |b|
  {
    |a| <= |b| &&
    (a == [] ||
     (a[|a| - 1] == b[|b| - 1] && Subsequence(a[..|a| - 1], b[..|b| - 1])) ||
     Subsequence(a, b[..|b| - 1]))
  }

  /** The elements of `ts` whose timestamps lie in [start, end],
      kept in the order the array's filter keeps them. */
  function FilterByTime(ts: seq<Transaction>, start: Millis, end: Millis): (r: seq<Transaction>)
    ensures |r| <= |ts|
    ensures forall t :: t in r <==> t in ts && InRange(t, start, end)
    decreases |ts|
  {
    if |ts| == 0 then []
    else
      var init, last := ts[..|ts| - 1], ts[|ts| - 1];
      assert ts == init + [last];
      FilterByTime(init, start, end) + (if InRange(last, start, end) then [last] else [])
  }

  /** The stored transactions with start <= timestamp <= end, in insertion order. */
  function FindByTimeRange(s: Store, start: Millis, end: Millis): (r: seq<Transaction>)
    ensures forall t :: t in r <==> t in FindAll(s) && InRange(t, start, end)
    ensures forall t :: multiset(r)[t] == if InRange(t, start, end) then multiset(FindAll(s))[t] else 0
    ensures end < start ==> r == []
    ensures Count(s) == 0 ==> r == []
  {
    FilterCounts(s.transactions, start, end);
    FilterByTime(s.transactions, start, end)
  }

  /** The filter keeps every in-range transaction as often as it occurs and drops the rest. */
  lemma {:induction false} FilterCounts(ts: seq<Transaction>, start: Millis, end: Millis)
    ensures forall t :: multiset(FilterByTime(ts, start, end))[t] == if InRange(t, start, end) then multiset(ts)[t] else 0
    decreases |ts|
  {
    if |ts| > 0 {
      var init, last := ts[..|ts| - 1], ts[|ts| - 1];
      assert ts == init + [last];
      FilterCounts(init, start, end);
    }
  }

  /** Saves each of `ts` in turn. */
  function SaveAll(s: Store, ts: seq<Transaction>): (r: Store)
    decreases |ts|
  {
    if |ts| == 0 then s else SaveAll(Save(s, ts[0]).0, ts[1..])
  }

  /** Saving a batch one by one leaves the batch at the end of the store,
      in the order it was saved, with the count grown by its length. */
  lemma {:induction false} SaveAllAppends(s: Store, ts: seq<Transaction>)
    ensures FindAll(SaveAll(s, ts)) == FindAll(s) + ts
    ensures Count(SaveAll(s, ts)) == Count(s) + |ts|
    decreases |ts|
  {
    if |ts| > 0 {
      var s' := Save(s, ts[0]).0;
      SaveAllAppends(s', ts[1..]);
      assert FindAll(s') == FindAll(s) + [ts[0]];
      assert [ts[0]] + ts[1..] == ts;
    }
  }

  /** From an empty repository, N saves give a count of N and findAll
      gives exactly the saved transactions in order. */
  lemma SavesFromEmpty(ts: seq<Transaction>)
    ensures Count(SaveAll(EmptyStore, ts)) == |ts|
    ensures FindAll(SaveAll(EmptyStore, ts)) == ts
  {
    SaveAllAppends(EmptyStore, ts);
  }

  /** Filtering distributes over concatenation: it never reorders across a boundary. */
  lemma {:induction false} FilterAppend(a: seq<Transaction>, b: seq<Transaction>, start: Millis, end: Millis)
    ensures FilterByTime(a + b, start, end) == FilterByTime(a, start, end) + FilterByTime(b, start, end)
    decreases |b|
  {
    if |b| > 0 {
      var b', last := b[..|b| - 1], b[|b| - 1];
      var ab := a + b;
      assert ab[..|ab| - 1] == a + b';
      assert ab[|ab| - 1] == last;
      var tail := if InRange(last, start, end) then [last] else [];
      calc {
        FilterByTime(ab, start, end);
        FilterByTime(a + b', start, end) + tail;
        { FilterAppend(a, b', start, end); }
        (FilterByTime(a, start, end) + FilterByTime(b', start, end)) + tail;
        FilterByTime(a, start, end) + (FilterByTime(b', start, end) + tail);
      }
    } else {
      assert a + b == a;
    }
  }

  /** When every timestamp is in range, the filter keeps everything. */
  lemma {:induction false} FilterKeepsAllInRange(ts: seq<Transaction>, start: Millis, end: Millis)
    requires forall i :: 0 <= i < |ts| ==> InRange(ts[i], start, end)
    ensures FilterByTime(ts, start, end) == ts
    decreases |ts|
  {
    if |ts| > 0 {
      FilterKeepsAllInRange(ts[..|ts| - 1], start, end);
      assert ts == ts[..|ts| - 1] + [ts[|ts| - 1]];
    }
  }

  /** The filter keeps the relative order of what it keeps. */
  lemma {:induction false} FilterKeepsOrder(ts: seq<Transaction>, start: Millis, end: Millis)
    ensures Subsequence(FilterByTime(ts, start, end), ts)
    decreases |ts|
  {
    var r := FilterByTime(ts, start, end);
    if |ts| > 0 {
      var init, last := ts[..|ts| - 1], ts[|ts| - 1];
      var r' := FilterByTime(init, start, end);
      FilterKeepsOrder(init, start, end);
      if InRange(last, start, end) {
        assert r[..|r| - 1] == r';
      } else {
        assert r == r';
      }
    }
  }

  /** The time-range query returns its result in insertion order. */
  lemma FindByTimeRangeKeepsOrder(s: Store, start: Millis, end: Millis)
    ensures Subsequence(FindByTimeRange(s, start, end), FindAll(s))
  {
    FilterKeepsOrder(s.transactions, start, end);
  }

  /** After a save, the query answers what it answered before, followed by
      the new transaction when its timestamp is in range. */
  lemma FindByTimeRangeAfterSave(s: Store, t: Transaction, start: Millis, end: Millis)
    ensures FindByTimeRange(Save(s, t).0, start, end)
         == FindByTimeRange(s, start, end) + (if InRange(t, start, end) then [t] else [])
  {
    FilterAppend(s.transactions, [t], start, end);
  }

  /** Clearing twice is the same as clearing once. */
  lemma DeleteAllIdempotent(s: Store)
    ensures DeleteAll(DeleteAll(s)) == DeleteAll(s)
  {
  }

  /** Save stores a transaction without an id as it is; it assigns none. */
  lemma SaveKeepsMissingId(s: Store, amount: Amount, timestamp: Millis)
    ensures FindAll(Save(s, Transaction(amount, timestamp, None)).0)[Count(s)].id == None
  {
  }

  /** Nothing stops two stored transactions from sharing an id. */
  lemma SaveAllowsDuplicateIds(t: Transaction, u: Transaction)
    requires t.id.Some? && t.id == u.id
    ensures var all := FindAll(Save(Save(EmptyStore, t).0, u).0);
            |all| == 2 && all[0].id == all[1].id
  {
  }
}
