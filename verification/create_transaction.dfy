/** The create use case: refuse a future timestamp, construct the entity
    with a freshly generated id, and save it. The use case and the entity
    each read the clock; `checkedAt` is the use case's reading and
    `constructedAt` the entity's. The generated id is the parameter `freshId`. */
module CreateTransactionUseCase {
  import opened Results
  import opened TransactionEntity
  import opened InMemoryRepository

  /** execute(): the store that follows and either the saved transaction or
      the error raised. A refused request leaves the store as it was. */
  function Execute(s: Store, amount: real, timestamp: Millis, freshId: Id, checkedAt: Millis, constructedAt: Millis)
    : (r: (Store, Result<Transaction, TxError>))
    ensures checkedAt < timestamp ==> r == (s, Err(FutureTimestamp))
    ensures timestamp <= checkedAt && amount < 0.0 ==> r == (s, Err(NegativeAmount))
    ensures timestamp <= checkedAt && 0.0 <= amount && constructedAt < timestamp ==> r == (s, Err(FutureTimestamp))
    ensures r.1.Err? ==> r.0 == s
    ensures r.1.Ok? <==> 0.0 <= amount && timestamp <= checkedAt && timestamp <= constructedAt
    ensures r.1.Ok? ==>
      && r.1.value == Transaction(amount, timestamp, Some(freshId))
      && Count(r.0) == Count(s) + 1
      && FindAll(r.0)[..Count(s)] == FindAll(s)
      && FindAll(r.0)[Count(s)] == r.1.value
  {
    if timestamp > checkedAt then (s, Err(FutureTimestamp))
    else
      match New(amount, timestamp, Some(freshId), constructedAt)
      case Err(e) => (s, Err(e))
      case Ok(t) =>
        var (s', saved) := Save(s, t);
        (s', Ok(saved))
  }

  /** On success the result is what save returned, and the store is the one
      save produced: save is called exactly once. */
  lemma SuccessIsOneSave(s: Store, amount: real, timestamp: Millis, freshId: Id, checkedAt: Millis, constructedAt: Millis)
    requires Execute(s, amount, timestamp, freshId, checkedAt, constructedAt).1.Ok?
    ensures var t := New(amount, timestamp, Some(freshId), constructedAt).value;
            Execute(s, amount, timestamp, freshId, checkedAt, constructedAt) == (Save(s, t).0, Ok(Save(s, t).1))
  {
  }

  /** With a clock that does not run backwards, the entity's own future check
      never fires once the pre-check has passed: the request fails with the
      future-timestamp error exactly when the timestamp is after the first reading. */
  lemma MonotoneClockFutureCheck(s: Store, amount: real, timestamp: Millis, freshId: Id, checkedAt: Millis, constructedAt: Millis)
    requires checkedAt <= constructedAt
    ensures var r := Execute(s, amount, timestamp, freshId, checkedAt, constructedAt);
            && (r.1 == Err(FutureTimestamp) <==> checkedAt < timestamp)
            && (r.1 == Err(NegativeAmount) <==> timestamp <= checkedAt && amount < 0.0)
            && (r.1.Ok? <==> timestamp <= checkedAt && 0.0 <= amount)
  {
  }

  /** The use case checks the timestamp before the amount, the reverse of the
      entity: a negative amount with a future timestamp is reported as
      negative by the entity and as future by the use case. */
  lemma CheckOrderDiffersFromEntity(s: Store, amount: real, timestamp: Millis, freshId: Id, now: Millis)
    requires amount < 0.0 && now < timestamp
    ensures New(amount, timestamp, Some(freshId), now) == Err(NegativeAmount)
    ensures Execute(s, amount, timestamp, freshId, now, now).1 == Err(FutureTimestamp)
  {
  }

  /** The ids of the stored transactions, in order. */
  function Ids(s: Store): (ids: seq<Option<Id>>)
    ensures |ids| == Count(s)
    ensures forall i :: 0 <= i < |ids| ==> ids[i] == FindAll(s)[i].id
  {
    seq(|s.transactions|, i requires 0 <= i < |s.transactions| => s.transactions[i].id)
  }

  /** No two stored transactions carry the same id. */
  predicate DistinctIds(s: Store)
  {
    forall i, j :: 0 <= i < j < |s.transactions| ==> s.transactions[i].id != s.transactions[j].id
  }

  /** Every stored timestamp is no later than `now`. */
  predicate NoneAfter(s: Store, now: Millis)
  {
    forall t :: t in s.transactions ==> t.timestamp <= now
  }

  /** Distinct ids survive a create whose generated id is new to the store;
      save itself does not check this. */
  lemma CreateKeepsIdsDistinct(s: Store, amount: real, timestamp: Millis, freshId: Id, checkedAt: Millis, constructedAt: Millis)
    requires DistinctIds(s)
    requires Some(freshId) !in Ids(s)
    ensures DistinctIds(Execute(s, amount, timestamp, freshId, checkedAt, constructedAt).0)
  {
    var r := Execute(s, amount, timestamp, freshId, checkedAt, constructedAt);
    if r.1.Ok? {
      var all := r.0.transactions;
      forall i, j | 0 <= i < j < |all| ensures all[i].id != all[j].id {
        if j == |all| - 1 {
          assert all[i] == s.transactions[i];
          assert Ids(s)[i] == all[i].id;
        } else {
          assert all[i] == s.transactions[i] && all[j] == s.transactions[j];
        }
      }
    }
  }

  /** A successful create whose generated id is already stored leaves two
      transactions sharing that id: distinctness rests on the id being new. */
  lemma CreateWithStoredIdDuplicates(s: Store, amount: real, timestamp: Millis, freshId: Id, checkedAt: Millis, constructedAt: Millis)
    requires Execute(s, amount, timestamp, freshId, checkedAt, constructedAt).1.Ok?
    requires Some(freshId) in Ids(s)
    ensures !DistinctIds(Execute(s, amount, timestamp, freshId, checkedAt, constructedAt).0)
  {
    var all := Execute(s, amount, timestamp, freshId, checkedAt, constructedAt).0.transactions;
    var i :| 0 <= i < |Ids(s)| && Ids(s)[i] == Some(freshId);
    assert all[i] == s.transactions[i];
    assert all[|all| - 1].id == Some(freshId);
  }

  /** With a clock that does not run backwards, every stored timestamp stays
      no later than any later clock reading. */
  lemma CreateKeepsTimestampsInPast(s: Store, amount: real, timestamp: Millis, freshId: Id, checkedAt: Millis, constructedAt: Millis, later: Millis)
    requires NoneAfter(s, checkedAt)
    requires checkedAt <= constructedAt <= later
    ensures NoneAfter(Execute(s, amount, timestamp, freshId, checkedAt, constructedAt).0, later)
  {
    var r := Execute(s, amount, timestamp, freshId, checkedAt, constructedAt);
    if r.1.Ok? {
      assert r.0.transactions == s.transactions + [r.1.value];
    }
  }
}
