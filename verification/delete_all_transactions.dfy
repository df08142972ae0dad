/** The delete-all use case: hand the request to the repository's deleteAll. */
module DeleteAllTransactionsUseCase {
  import opened InMemoryRepository

  /** execute(): the store after one deleteAll; it never fails. */
  function Execute(s: Store): (r: Store)
    ensures Count(r) == 0
    ensures FindAll(r) == []
    ensures forall start, end :: FindByTimeRange(r, start, end) == []
  {
    DeleteAll(s)
  }

  /** Running it twice leaves the same store as running it once, and on an
      empty store it changes nothing. */
  lemma ExecuteIdempotent(s: Store)
    ensures Execute(Execute(s)) == Execute(s)
    ensures Execute(EmptyStore) == EmptyStore
  {
  }
}
