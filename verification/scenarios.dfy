/** End-to-end scenarios: the worked examples of the repository's tests,
    replayed through the use cases with an explicit clock. */
module Scenarios {
  import opened Results
  import opened TransactionEntity
  import opened InMemoryRepository
  import opened StatisticsDtos
  import opened GetStatisticsUseCase
  import CreateTransactionUseCase
  import DeleteAllTransactionsUseCase

  /** Creates a transaction of `amount` stamped `timestamp`, with both clock
      readings equal to `now`, and keeps the resulting store. */
  function CreateAt(s: Store, amount: real, timestamp: Millis, id: Id, now: Millis): (r: Store)
  {
    CreateTransactionUseCase.Execute(s, amount, timestamp, id, now, now).0
  }

  /** A valid create appends the transaction with the generated id. */
  lemma CreateAtAppends(s: Store, amount: real, timestamp: Millis, id: Id, now: Millis)
    requires 0.0 <= amount && timestamp <= now
    ensures CreateAt(s, amount, timestamp, id, now).transactions == s.transactions + [Transaction(amount, timestamp, Some(id))]
  {
  }

  /** The statistics of a store whose transactions all lie in the window are
      the reduction of all of them. */
  lemma AllInWindow(s: Store, now: Millis)
    requires |s.transactions| > 0
    requires forall i :: 0 <= i < |s.transactions| ==> InWindow(s.transactions[i], now)
    ensures GetStatisticsUseCase.Execute(s, now) == Aggregate(s.transactions)
  {
    FilterKeepsAllInRange(s.transactions, now - WindowMillis, now);
  }

  /** The reduction of three transactions of 10, 20 and 30. */
  lemma AggregateTenTwentyThirty(t1: Transaction, t2: Transaction, t3: Transaction)
    requires t1.amount == 10.0 && t2.amount == 20.0 && t3.amount == 30.0
    ensures Aggregate([t1, t2, t3]) == StatisticsDto(3, 60.0, 20.0, 10.0, 30.0)
  {
    var amounts := Amounts([t1, t2, t3]);
    assert amounts == [10.0, 20.0, 30.0];
    assert amounts[..2] == [10.0, 20.0];
    assert Sum([10.0, 20.0]) == 30.0 by {
      assert [10.0, 20.0][..1] == [10.0] && [10.0][..0] == [];
    }
    assert Sum(amounts) == 60.0;
    Round2Unique(60.0, 60.0);
    Round2Unique(20.0, 20.0);
  }

  /** The reduction of two transactions of 25.5 and 74.5. */
  lemma AggregateQuarterPair(t1: Transaction, t2: Transaction)
    requires t1.amount == 25.5 && t2.amount == 74.5
    ensures Aggregate([t1, t2]) == StatisticsDto(2, 100.0, 50.0, 25.5, 74.5)
  {
    var amounts := Amounts([t1, t2]);
    assert amounts == [25.5, 74.5];
    assert amounts[..1] == [25.5] && [25.5][..0] == [];
    assert Sum(amounts) == 100.0;
    Round2Unique(100.0, 100.0);
    Round2Unique(50.0, 50.0);
  }

  /** Three transactions of 10, 20 and 30 stamped 30 seconds ago give
      count 3, sum 60, average 20, minimum 10 and maximum 30. */
  lemma TenTwentyThirty(now: Millis)
    ensures var ts := now - 30000;
            var s := CreateAt(CreateAt(CreateAt(EmptyStore, 10.0, ts, "a", now), 20.0, ts, "b", now), 30.0, ts, "c", now);
            GetStatisticsUseCase.Execute(s, now) == StatisticsDto(3, 60.0, 20.0, 10.0, 30.0)
  {
    var ts := now - 30000;
    var t1, t2, t3 := Transaction(10.0, ts, Some("a")), Transaction(20.0, ts, Some("b")), Transaction(30.0, ts, Some("c"));
    var s1 := CreateAt(EmptyStore, 10.0, ts, "a", now);
    CreateAtAppends(EmptyStore, 10.0, ts, "a", now);
    var s2 := CreateAt(s1, 20.0, ts, "b", now);
    CreateAtAppends(s1, 20.0, ts, "b", now);
    var s3 := CreateAt(s2, 30.0, ts, "c", now);
    CreateAtAppends(s2, 30.0, ts, "c", now);
    assert s3.transactions == [t1, t2, t3];
    AllInWindow(s3, now);
    AggregateTenTwentyThirty(t1, t2, t3);
  }

  /** After clearing, 25.5 and 74.5 stamped 30 seconds ago give count 2,
      sum 100, average 50, minimum 25.5 and maximum 74.5; clearing again
      brings the count back to 0. */
  lemma LifecycleScenario(previous: Store, now: Millis)
    ensures var ts := now - 30000;
            var cleared := DeleteAllTransactionsUseCase.Execute(previous);
            var s := CreateAt(CreateAt(cleared, 25.5, ts, "a", now), 74.5, ts, "b", now);
            && GetStatisticsUseCase.Execute(cleared, now).count == 0
            && GetStatisticsUseCase.Execute(s, now) == StatisticsDto(2, 100.0, 50.0, 25.5, 74.5)
            && GetStatisticsUseCase.Execute(DeleteAllTransactionsUseCase.Execute(s), now).count == 0
  {
    var ts := now - 30000;
    var t1, t2 := Transaction(25.5, ts, Some("a")), Transaction(74.5, ts, Some("b"));
    var cleared := DeleteAllTransactionsUseCase.Execute(previous);
    var s1 := CreateAt(cleared, 25.5, ts, "a", now);
    CreateAtAppends(cleared, 25.5, ts, "a", now);
    var s2 := CreateAt(s1, 74.5, ts, "b", now);
    CreateAtAppends(s1, 74.5, ts, "b", now);
    assert s2.transactions == [t1, t2];
    AllInWindow(s2, now);
    AggregateQuarterPair(t1, t2);
  }

  /** The average is rounded from the unrounded sum: two transactions of
      0.004 average 0.00, whereas halving the rounded sum 0.01 and rounding
      would give 0.01. */
  lemma AverageFromUnroundedSum(t1: Transaction, t2: Transaction)
    requires t1.amount == 0.004 && t2.amount == 0.004
    ensures var d := Aggregate([t1, t2]);
            && d.sum == 0.01
            && d.avg == 0.0
            && Round2(d.sum / 2.0) == 0.01
  {
    var amounts := Amounts([t1, t2]);
    assert amounts == [0.004, 0.004];
    assert amounts[..1] == [0.004] && [0.004][..0] == [];
    assert Sum(amounts) == 0.008;
    Round2Unique(0.008, 0.01);
    Round2Unique(0.004, 0.0);
    Round2Unique(0.005, 0.01);
  }
}
