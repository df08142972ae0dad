/** The statistics use case: select the transactions of the window
    [now - 60 s, now] through the repository and reduce them to count, sum,
    average, minimum and maximum, with sum and average rounded to cents. */
module GetStatisticsUseCase {
  import opened TransactionEntity
  import opened InMemoryRepository
  import opened StatisticsDtos

  /** The length of the window, in milliseconds. */
  const WindowMillis: int := 60 * 1000

  /** Whether a transaction falls in the window ending at `now`, both ends included. */
  predicate InWindow(t: Transaction, now: Millis)
  {
    InRange(t, now - WindowMillis, now)
  }

  /** Whether `x` is a whole number of hundredths. */
  predicate IsCents(x: real)
  {
    (100.0 * x).Floor as real == 100.0 * x
  }

  /** Rounds to two decimals, halves going up: Math.round(x * 100) / 100 over
      exact reals, where Math.round(y) is the floor of y + 1/2. */
  function Round2(x: real): (r: real)
    ensures IsCents(r)
    ensures r - 0.005 <= x < r + 0.005
  {
    (100.0 * x + 0.5).Floor as real / 100.0
  }

  /** A whole number of hundredths within half a hundredth below (inclusive)
      or above (exclusive) of `x` is the rounding of `x`. */
  lemma Round2Unique(x: real, c: real)
    requires IsCents(c)
    requires c - 0.005 <= x < c + 0.005
    ensures Round2(x) == c
  {
    var m := (100.0 * c).Floor;
    assert m as real <= 100.0 * x + 0.5 < m as real + 1.0;
    assert (100.0 * x + 0.5).Floor == m;
  }

  /** Rounding a value that already has at most two decimals changes nothing. */
  lemma Round2Idempotent(c: real)
    requires IsCents(c)
    ensures Round2(c) == c
  {
    Round2Unique(c, c);
  }

  /** Rounding keeps non-negative values non-negative. */
  lemma Round2NonNegative(x: real)
    requires 0.0 <= x
    ensures 0.0 <= Round2(x)
  {
    assert 0 <= (100.0 * x + 0.5).Floor;
  }

  /** The amounts of `ts`, in order. */
  function Amounts(ts: seq<Transaction>): (a: seq<real>)
    ensures |a| == |ts|
    ensures forall i :: 0 <= i < |a| ==> a[i] == ts[i].amount
  {
    seq(|ts|, i requires 0 <= i < |ts| => ts[i].amount)
  }

  /** The sum of `a`, accumulated from the left starting at 0 as the reduce
      does; a sum of non-negative values is non-negative. */
  function Sum(a: seq<real>): (total: real)
    ensures (forall i :: 0 <= i < |a| ==> 0.0 <= a[i]) ==> 0.0 <= total
    decreases |a|
  {
    if |a| == 0 then 0.0 else Sum(a[..|a| - 1]) + a[|a| - 1]
  }

  /** Summing a concatenation is adding the sums of its parts. */
  lemma {:induction false} SumAppend(a: seq<real>, b: seq<real>)
    ensures Sum(a + b) == Sum(a) + Sum(b)
    decreases |b|
  {
    if |b| == 0 {
      assert a + b == a;
    } else {
      var ab := a + b;
      assert ab[..|ab| - 1] == a + b[..|b| - 1];
      SumAppend(a, b[..|b| - 1]);
    }
  }

  /** Over exact reals the order in which the reduce visits the amounts does
      not change the total: any rearrangement has the same sum. */
  lemma {:induction false} SumPermutation(a: seq<real>, b: seq<real>)
    requires multiset(a) == multiset(b)
    ensures Sum(a) == Sum(b)
    decreases |a|
  {
    if |a| == 0 {
      assert |b| == |multiset(b)| == 0;
    } else {
      var x := a[|a| - 1];
      var init := a[..|a| - 1];
      assert a == init + [x];
      assert multiset(init) == multiset(a) - multiset{x};
      assert x in multiset(b);
      var j :| 0 <= j < |b| && b[j] == x;
      var rest := b[..j] + b[j + 1..];
      assert b == b[..j] + [x] + b[j + 1..];
      assert multiset(rest) == multiset(b) - multiset{x};
      SumPermutation(init, rest);
      SumAppend(init, [x]);
      SumAppend(b[..j] + [x], b[j + 1..]);
      SumAppend(b[..j], [x]);
      SumAppend(b[..j], b[j + 1..]);
      assert Sum([x]) == x by { assert [x][..0] == []; }
    }
  }

  /** The smallest element of `a`. */
  function Min(a: seq<real>): (m: real)
    requires |a| > 0
    ensures m in a
    ensures forall x :: x in a ==> m <= x
    decreases |a|
  {
    if |a| == 1 then a[0]
    else
      var init := a[..|a| - 1];
      assert a == init + [a[|a| - 1]];
      var m' := Min(init);
      if a[|a| - 1] < m' then a[|a| - 1] else m'
  }

  /** The largest element of `a`. */
  function Max(a: seq<real>): (m: real)
    requires |a| > 0
    ensures m in a
    ensures forall x :: x in a ==> x <= m
    decreases |a|
  {
    if |a| == 1 then a[0]
    else
      var init := a[..|a| - 1];
      assert a == init + [a[|a| - 1]];
      var m' := Max(init);
      if a[|a| - 1] > m' then a[|a| - 1] else m'
  }

  /** The sum of `n` copies of `m`, kept apart from multiplication so that
      the bounds below stay linear. */
  function Copies(n: nat, m: real): (total: real)
  {
    if n == 0 then 0.0 else Copies(n - 1, m) + m
  }

  /** `n` copies of `m` add up to n * m. */
  lemma {:induction false} CopiesIsProduct(n: nat, m: real)
    ensures Copies(n, m) == n as real * m
  {
    if n > 0 {
      CopiesIsProduct(n - 1, m);
    }
  }

  /** The sum is at least |a| copies of the minimum. */
  lemma {:induction false} SumAtLeastCopiesOfMin(a: seq<real>)
    requires |a| > 0
    ensures Copies(|a|, Min(a)) <= Sum(a)
    decreases |a|
  {
    var n := |a|;
    if n > 1 {
      var init, last := a[..n - 1], a[n - 1];
      assert a == init + [last];
      SumAtLeastCopiesOfMin(init);
      var m, m' := Min(a), Min(init);
      assert m <= m' by { assert m' in a; }
      CopiesMonotone(n - 1, m, m');
    }
  }

  /** The sum is at most |a| copies of the maximum. */
  lemma {:induction false} SumAtMostCopiesOfMax(a: seq<real>)
    requires |a| > 0
    ensures Sum(a) <= Copies(|a|, Max(a))
    decreases |a|
  {
    var n := |a|;
    if n > 1 {
      var init, last := a[..n - 1], a[n - 1];
      assert a == init + [last];
      SumAtMostCopiesOfMax(init);
      var m, m' := Max(a), Max(init);
      assert m' <= m by { assert m' in a; }
      CopiesMonotone(n - 1, m', m);
    }
  }

  /** More of each copy gives more in all. */
  lemma {:induction false} CopiesMonotone(n: nat, x: real, y: real)
    requires x <= y
    ensures Copies(n, x) <= Copies(n, y)
  {
    if n > 0 {
      CopiesMonotone(n - 1, x, y);
    }
  }

  /** Dividing `n` copies of a bound by `n` gives the bound back. */
  lemma DivideCopies(lo: real, x: real, hi: real, n: nat)
    requires 0 < n && Copies(n, lo) <= x <= Copies(n, hi)
    ensures lo <= x / n as real <= hi
  {
    CopiesIsProduct(n, lo);
    CopiesIsProduct(n, hi);
    var k := n as real;
    assert x / k * k == x;
  }

  /** The unrounded average lies between the minimum and the maximum. */
  lemma AverageBetweenMinAndMax(a: seq<real>)
    requires |a| > 0
    ensures Min(a) <= Sum(a) / |a| as real <= Max(a)
  {
    SumAtLeastCopiesOfMin(a);
    SumAtMostCopiesOfMax(a);
    DivideCopies(Min(a), Sum(a), Max(a), |a|);
  }

  /** The reduction of the non-empty list of transactions found in the
      window: the count, the sum and the average rounded to cents (the
      average from the unrounded sum), and the unrounded minimum and
      maximum amounts. */
  function Aggregate(ts: seq<Transaction>): (d: StatisticsDto)
    requires |ts| > 0
    ensures d.count == |ts|
    ensures d.sum == Round2(Sum(Amounts(ts)))
    ensures d.avg == Round2(Sum(Amounts(ts)) / |ts| as real)
    ensures forall t :: t in ts ==> d.min <= t.amount <= d.max
    ensures (exists t :: t in ts && t.amount == d.min) && (exists t :: t in ts && t.amount == d.max)
    ensures 0.0 <= d.min <= d.max && 0.0 <= d.sum && 0.0 <= d.avg
  {
    var amounts := Amounts(ts);
    var sum := Sum(amounts);
    var avg := sum / |amounts| as real;
    var min, max := Min(amounts), Max(amounts);
    assert forall t :: t in ts ==> t.amount in amounts by {
      forall t | t in ts ensures t.amount in amounts {
        var i :| 0 <= i < |ts| && ts[i] == t;
        assert amounts[i] == t.amount;
      }
    }
    assert exists i :: 0 <= i < |ts| && ts[i].amount == min;
    assert exists i :: 0 <= i < |ts| && ts[i].amount == max;
    AverageBetweenMinAndMax(amounts);
    Round2NonNegative(sum);
    Round2NonNegative(avg);
    StatisticsDto(|ts|, Round2(sum), Round2(avg), min, max)
  }

  /** execute(): the statistics of the stored transactions in the window
      [now - 60000 ms, now]. */
  function Execute(s: Store, now: Millis): (d: StatisticsDto)
    ensures d.count == |FindByTimeRange(s, now - WindowMillis, now)|
    ensures d.count == 0 <==> forall t :: t in FindAll(s) ==> !InWindow(t, now)
    ensures d.count == 0 ==> d == Empty()
    ensures d.count > 0 ==> d == Aggregate(FindByTimeRange(s, now - WindowMillis, now))
    ensures forall t :: t in FindAll(s) && InWindow(t, now) ==> d.min <= t.amount <= d.max
    ensures d.count > 0 ==> exists t :: t in FindAll(s) && InWindow(t, now) && t.amount == d.min
    ensures d.count > 0 ==> exists t :: t in FindAll(s) && InWindow(t, now) && t.amount == d.max
    ensures 0.0 <= d.min <= d.max
  {
    var found := FindByTimeRange(s, now - WindowMillis, now);
    if |found| == 0 then Empty() else Aggregate(found)
  }

  /** The window is exactly the transactions no more than 60 seconds old by
      the entity's own age query and not in the future. */
  lemma WindowMatchesEntityQuery(t: Transaction, now: Millis)
    ensures InWindow(t, now) <==> IsWithinLastSeconds(t, 60.0, now) && t.timestamp <= now
  {
  }

  /** Saving a transaction outside the window leaves the statistics as they were. */
  lemma OutsideWindowIgnored(s: Store, t: Transaction, now: Millis)
    requires !InWindow(t, now)
    ensures Execute(Save(s, t).0, now) == Execute(s, now)
  {
    var found := FindByTimeRange(s, now - WindowMillis, now);
    FindByTimeRangeAfterSave(s, t, now - WindowMillis, now);
    assert found + [] == found;
  }

  /** A transaction older than 60 seconds contributes nothing. */
  lemma OlderThanWindowIgnored(s: Store, t: Transaction, now: Millis)
    requires t.timestamp < now - WindowMillis
    ensures Execute(Save(s, t).0, now) == Execute(s, now)
  {
    OutsideWindowIgnored(s, t, now);
  }

  /** Saving a transaction inside the window adds one to the count and bounds
      the new minimum and maximum by its amount. */
  lemma InsideWindowCounted(s: Store, t: Transaction, now: Millis)
    requires InWindow(t, now)
    ensures Execute(Save(s, t).0, now).count == Execute(s, now).count + 1
    ensures Execute(Save(s, t).0, now).min <= t.amount <= Execute(Save(s, t).0, now).max
  {
    FindByTimeRangeAfterSave(s, t, now - WindowMillis, now);
  }

  /** An empty repository, and one just cleared, report all zeros. */
  lemma EmptyStoreReportsZeros(s: Store, now: Millis)
    ensures Execute(EmptyStore, now) == Empty()
    ensures Execute(DeleteAll(s), now) == Empty()
  {
  }
}
