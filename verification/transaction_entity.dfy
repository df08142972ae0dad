/** The transaction entity: an immutable amount and timestamp with an
    optional identifier, guarded at construction by two business rules.
    The wall clock is the explicit parameter `now` (milliseconds). */
module TransactionEntity {
  import opened Results

  /** An opaque identifier supplied by the caller. */
  type Id = string

  /** A point in time, in milliseconds since the epoch. */
  type Millis = int

  /** The amounts a constructed transaction can hold: construction refuses negatives. */
  type Amount = x: real | x >= 0.0

  /** The two business-rule violations construction can report. */
  datatype TxError = NegativeAmount | FutureTimestamp

  /** A constructed transaction. Its fields are fixed once it exists. */
  datatype Transaction = Transaction(amount: Amount, timestamp: Millis, id: Option<Id>)

  /** The constructor: the amount is checked first, then the timestamp
      against the clock reading `now`; on success the fields are the arguments. */
  function New(amount: real, timestamp: Millis, id: Option<Id>, now: Millis): (r: Result<Transaction, TxError>)
    ensures r == Err(NegativeAmount) <==> amount < 0.0
    ensures r == Err(FutureTimestamp) <==> 0.0 <= amount && now < timestamp
    ensures r.Ok? <==> 0.0 <= amount && timestamp <= now
    ensures r.Ok? ==> r.value.amount == amount && r.value.timestamp == timestamp && r.value.id == id
  {
    if amount < 0.0 then Err(NegativeAmount)
    else if timestamp > now then Err(FutureTimestamp)
    else Ok(Transaction(amount, timestamp, id))
  }

  /** Seconds elapsed between the timestamp and `now`, as an exact fraction. */
  function AgeInSeconds(t: Transaction, now: Millis): (age: real)
    ensures age * 1000.0 == (now - t.timestamp) as real
    ensures 0.0 <= age <==> t.timestamp <= now
  {
    (now - t.timestamp) as real / 1000.0
  }

  /** Whether at most `seconds` seconds have passed since the timestamp. */
  function IsWithinLastSeconds(t: Transaction, seconds: real, now: Millis): (within: bool)
    ensures within <==> AgeInSeconds(t, now) <= seconds
    ensures within <==> (now - t.timestamp) as real <= 1000.0 * seconds
  {
    (now - t.timestamp) as real / 1000.0 <= seconds
  }

  /** A transaction is never older than zero seconds at any clock reading
      no earlier than the one it was constructed against. */
  lemma AgeNonNegativeAfterConstruction(amount: real, timestamp: Millis, id: Option<Id>, createdAt: Millis, now: Millis)
    requires New(amount, timestamp, id, createdAt).Ok?
    requires createdAt <= now
    ensures 0.0 <= AgeInSeconds(New(amount, timestamp, id, createdAt).value, now)
  {
  }

  /** A negative amount is reported even when the timestamp is also in the future. */
  lemma AmountCheckedBeforeTimestamp(amount: real, timestamp: Millis, id: Option<Id>, now: Millis)
    requires amount < 0.0 && now < timestamp
    ensures New(amount, timestamp, id, now) == Err(NegativeAmount)
  {
  }
}
