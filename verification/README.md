# Transaction store and 60-second statistics, modelled in Dafny

This project models the core of a small transaction API. Clients post
transactions (an amount and a timestamp). The API keeps them in an in-memory
repository and reports count, sum, average, minimum and maximum over the
transactions of the last 60 seconds.

The model covers:

- **Transaction entity** (`TransactionEntity`). An immutable datatype with an
  amount, a timestamp in milliseconds and an optional id. Construction (`New`)
  checks the amount first and the timestamp second. It reports
  `NegativeAmount` or `FutureTimestamp` as an error kind, not as a message
  string. The `Amount` subset type records that a constructed transaction
  never holds a negative amount. `AgeInSeconds` and `IsWithinLastSeconds` are
  evaluated against an explicit clock reading `now`.
- **In-memory repository** (`InMemoryRepository`). A `Store` wraps the
  insertion-ordered sequence. `Save`, `FindAll`, `FindByTimeRange`,
  `DeleteAll` and `Count` are pure functions: the mutating ones return the
  store that follows. The time-range query is a front-to-back filter with
  both ends of the interval included.
- **Statistics** (`StatisticsDtos`, `GetStatisticsUseCase`). The reply
  datatype is `StatisticsDto`; its constructor stores each argument in the
  field of the same name, and `Empty()` is the all-zero reply. `Execute`
  queries the window `[now - 60000, now]`. It returns `Empty()` when the
  window holds nothing, and otherwise the reduction `Aggregate`. Amounts are
  exact reals. `Math.round(y)` is `floor(y + 1/2)` for every `y`, so rounding
  to cents is `Round2(x) = floor(100x + 1/2) / 100` (halves go up). The
  average is rounded from the unrounded sum.
- **Create and delete-all use cases** (`CreateTransactionUseCase`,
  `DeleteAllTransactionsUseCase`). Create first refuses a future timestamp
  against its own clock reading. It then constructs the entity with a
  generated id against the entity's clock reading, and saves it. Both
  readings and the generated id are parameters. Delete-all is a single
  `DeleteAll` and cannot fail.
- **Scenarios** (`Scenarios`). The worked examples of the e2e tests, replayed
  through the use cases.

Three behaviours of the code are easy to misread:

- `save` appends the transaction as given and does not assign a missing id
  (`SaveKeepsMissingId`).
- Nothing enforces unique ids (`SaveAllowsDuplicateIds`). Ids stay distinct
  when every generated id is new (`CreateKeepsIdsDistinct`), and a successful
  create with an id already stored produces a duplicate
  (`CreateWithStoredIdDuplicates`).
- The create use case keeps its own future-timestamp pre-check before
  construction. So it reports a negative amount with a future timestamp as
  "future", while the entity alone reports "negative"
  (`CheckOrderDiffersFromEntity`).

## Model

| member | source | states |
|---|---|---|
| `TransactionEntity.New` | src/domain/entities/transaction.entity.ts:2-22 | fails with NegativeAmount exactly when amount < 0; fails with FutureTimestamp exactly when the amount is fine and timestamp > now; succeeds exactly when amount >= 0 and timestamp <= now (0 and timestamp == now are accepted); on success the fields equal the arguments |
| `TransactionEntity.AmountCheckedBeforeTimestamp` | src/domain/entities/transaction.entity.ts:7-8 | a negative amount with a future timestamp is reported as NegativeAmount |
| `TransactionEntity.AgeInSeconds` | src/domain/entities/transaction.entity.ts:30-33 | the age times 1000 is the elapsed milliseconds now - timestamp; the age is non-negative exactly when the timestamp is not after now |
| `TransactionEntity.IsWithinLastSeconds` | src/domain/entities/transaction.entity.ts:24-28 | holds exactly when the age in seconds is at most `seconds`, that is when now - timestamp <= 1000 * seconds |
| `TransactionEntity.AgeNonNegativeAfterConstruction` | src/domain/entities/transaction.entity.ts:17-33 | a successfully constructed transaction has a non-negative age at every clock reading no earlier than its construction clock |
| `InMemoryRepository.FindAll` | src/infrastructure/repositories/in-memory-transaction.repository.ts:14-17 | the snapshot has the stored transactions, element for element, in insertion order |
| `InMemoryRepository.Count` | src/infrastructure/repositories/in-memory-transaction.repository.ts:32-34 | the count is the length of what findAll returns |
| `InMemoryRepository.Save` | src/infrastructure/repositories/in-memory-transaction.repository.ts:9-12 | the count grows by exactly one; the earlier elements are unchanged; the new last element is the given transaction; the returned value is the given transaction itself |
| `InMemoryRepository.DeleteAll` | src/infrastructure/repositories/in-memory-transaction.repository.ts:27-30 | afterwards the count is 0 and findAll is empty, whatever the store held |
| `InMemoryRepository.FilterByTime` | src/infrastructure/repositories/in-memory-transaction.repository.ts:20-23 | a transaction is kept exactly when it occurs in the input with start <= timestamp <= end; the result is no longer than the input |
| `InMemoryRepository.FilterCounts` | src/infrastructure/repositories/in-memory-transaction.repository.ts:20-23 | every in-range transaction is kept as many times as it occurs, and out-of-range ones not at all |
| `InMemoryRepository.FindByTimeRange` | src/infrastructure/repositories/in-memory-transaction.repository.ts:19-25 | returns exactly the stored transactions with start <= timestamp <= end, each with its multiplicity; empty when end < start or when the store is empty |
| `InMemoryRepository.FilterAppend` | src/infrastructure/repositories/in-memory-transaction.repository.ts:20-23 | filtering a concatenation is the concatenation of the filtered parts |
| `InMemoryRepository.FilterKeepsAllInRange` | src/infrastructure/repositories/in-memory-transaction.repository.ts:20-23 | when every timestamp is in range, the filter returns its input unchanged |
| `InMemoryRepository.FilterKeepsOrder` | src/infrastructure/repositories/in-memory-transaction.repository.ts:20-23 | the filter result is a subsequence of its input (relative order kept) |
| `InMemoryRepository.FindByTimeRangeKeepsOrder` | src/infrastructure/repositories/in-memory-transaction.repository.ts:19-25 | the query result is a subsequence of the stored transactions, so it is in insertion order |
| `InMemoryRepository.FindByTimeRangeAfterSave` | src/infrastructure/repositories/in-memory-transaction.repository.ts:9-25 | after a save the query gives its earlier answer, followed by the new transaction exactly when that transaction is in range |
| `InMemoryRepository.SaveAllAppends` | src/infrastructure/repositories/in-memory-transaction.repository.ts:9-17 | saving a batch one by one appends the batch in order and adds its length to the count |
| `InMemoryRepository.SavesFromEmpty` | src/infrastructure/repositories/in-memory-transaction.repository.ts:7-17 | from a new repository, N saves give count N, and findAll gives exactly the saved transactions in order |
| `InMemoryRepository.DeleteAllIdempotent` | src/infrastructure/repositories/in-memory-transaction.repository.ts:27-30 | clearing twice gives the same store as clearing once |
| `InMemoryRepository.SaveKeepsMissingId` | src/infrastructure/repositories/in-memory-transaction.repository.ts:9-12 | a transaction saved without an id is stored without one |
| `InMemoryRepository.SaveAllowsDuplicateIds` | src/infrastructure/repositories/in-memory-transaction.repository.ts:9-12 | two transactions with the same id are both stored |
| `StatisticsDtos.Empty` | src/application/dtos/statistics.dto.ts:48-50 | count is 0 and sum, avg, min and max are all 0 |
| `GetStatisticsUseCase.Round2` | src/application/use-cases/get-statistics.use-case.ts:33-34 | the result is a whole number of hundredths, at most half a hundredth above x, and less than half a hundredth below it (halves round up) |
| `GetStatisticsUseCase.Round2Unique` | src/application/use-cases/get-statistics.use-case.ts:33-34 | a whole number of hundredths in that half-open interval around x is Round2(x), so the contract of Round2 defines it |
| `GetStatisticsUseCase.Round2Idempotent` | src/application/use-cases/get-statistics.use-case.ts:33-34 | rounding a value that already has two decimals returns it unchanged |
| `GetStatisticsUseCase.Round2NonNegative` | src/application/use-cases/get-statistics.use-case.ts:33-34 | rounding keeps non-negative values non-negative |
| `GetStatisticsUseCase.Amounts` | src/application/use-cases/get-statistics.use-case.ts:25 | one amount per transaction, in order |
| `GetStatisticsUseCase.Min` | src/application/use-cases/get-statistics.use-case.ts:28 | the result is one of the amounts and no amount is smaller |
| `GetStatisticsUseCase.Max` | src/application/use-cases/get-statistics.use-case.ts:29 | the result is one of the amounts and no amount is larger |
| `GetStatisticsUseCase.Sum` | src/application/use-cases/get-statistics.use-case.ts:26 | the left fold from 0 over the amounts, in order, as reduce does; the total is non-negative when every amount is |
| `GetStatisticsUseCase.SumAppend` | src/application/use-cases/get-statistics.use-case.ts:26 | the sum of a concatenation is the sum of the parts |
| `GetStatisticsUseCase.SumPermutation` | src/application/use-cases/get-statistics.use-case.ts:26 | two lists holding the same amounts with the same multiplicities have the same sum, so over exact reals the order in which reduce visits the amounts does not change the total |
| `GetStatisticsUseCase.SumAtLeastCopiesOfMin` | src/application/use-cases/get-statistics.use-case.ts:26-28 | the sum is at least count copies of the minimum |
| `GetStatisticsUseCase.SumAtMostCopiesOfMax` | src/application/use-cases/get-statistics.use-case.ts:26-29 | the sum is at most count copies of the maximum |
| `GetStatisticsUseCase.AverageBetweenMinAndMax` | src/application/use-cases/get-statistics.use-case.ts:27-29 | the unrounded average lies between the minimum and the maximum |
| `GetStatisticsUseCase.Aggregate` | src/application/use-cases/get-statistics.use-case.ts:25-37 | for a non-empty window: count is its size; sum is Round2 of the amounts' total; avg is Round2 of the unrounded total over the count; min and max are amounts in the window, bound every amount, and are not rounded; all five are non-negative |
| `GetStatisticsUseCase.Execute` | src/application/use-cases/get-statistics.use-case.ts:12-38 | the window is [now - 60000, now] in milliseconds, both ends included; count is the number of stored transactions in it; the reply is StatisticsDto.empty() exactly when none is in it, and otherwise the reduction `Aggregate` of the windowed transactions in insertion order; min and max are amounts of windowed transactions and bound all of them, with 0 <= min <= max |
| `GetStatisticsUseCase.WindowMatchesEntityQuery` | src/application/use-cases/get-statistics.use-case.ts:13-19 | a transaction is in the window exactly when the entity's isWithinLastSeconds(60) holds and its timestamp is not after now |
| `GetStatisticsUseCase.OutsideWindowIgnored` | src/application/use-cases/get-statistics.use-case.ts:13-19 | saving a transaction outside the window leaves the statistics unchanged |
| `GetStatisticsUseCase.OlderThanWindowIgnored` | src/application/use-cases/get-statistics.use-case.ts:13-19 | a transaction more than 60 s old contributes nothing |
| `GetStatisticsUseCase.InsideWindowCounted` | src/application/use-cases/get-statistics.use-case.ts:13-36 | saving a windowed transaction adds one to the count, and its amount lies between the new min and max |
| `GetStatisticsUseCase.EmptyStoreReportsZeros` | src/application/use-cases/get-statistics.use-case.ts:21-23 | a new or cleared repository yields exactly StatisticsDto.empty() |
| `CreateTransactionUseCase.Execute` | src/application/use-cases/create-transaction.use-case.ts:14-32 | a timestamp after the use case's clock fails with FutureTimestamp before anything else; otherwise a negative amount fails with NegativeAmount; otherwise a timestamp after the entity's clock (a clock that went backwards) fails with FutureTimestamp; every failure leaves the store unchanged; success happens exactly when the amount is non-negative and the timestamp is after neither clock reading; on success the transaction has the input amount and timestamp and the generated id, the count grows by one, and the earlier elements are kept with the new one last |
| `CreateTransactionUseCase.SuccessIsOneSave` | src/application/use-cases/create-transaction.use-case.ts:25-31 | on success the result and the new store are exactly those of one save of the constructed transaction |
| `CreateTransactionUseCase.MonotoneClockFutureCheck` | src/application/use-cases/create-transaction.use-case.ts:17-29 | with a clock that does not go backwards, the future error happens exactly when the timestamp is after the first reading, the negative error exactly when the timestamp is fine and the amount is negative, and success otherwise |
| `CreateTransactionUseCase.CheckOrderDiffersFromEntity` | src/application/use-cases/create-transaction.use-case.ts:20-29 | for a negative amount with a future timestamp, the entity reports NegativeAmount but the use case reports FutureTimestamp |
| `CreateTransactionUseCase.CreateKeepsIdsDistinct` | src/application/use-cases/create-transaction.use-case.ts:25-31 | if the stored ids are distinct and the generated id is new, they stay distinct after a create |
| `CreateTransactionUseCase.CreateWithStoredIdDuplicates` | src/application/use-cases/create-transaction.use-case.ts:25-31 | a successful create whose generated id is already stored leaves two transactions with that id, since neither the use case nor save checks it |
| `CreateTransactionUseCase.CreateKeepsTimestampsInPast` | src/application/use-cases/create-transaction.use-case.ts:20-31 | if no stored timestamp is after the first clock reading and the clock does not go backwards, no stored timestamp is after any later reading |
| `DeleteAllTransactionsUseCase.Execute` | src/application/use-cases/delete-all-transactions.use-case.ts:11-13 | never fails; afterwards the count is 0, findAll is empty and every time-range query is empty |
| `DeleteAllTransactionsUseCase.ExecuteIdempotent` | src/application/use-cases/delete-all-transactions.use-case.ts:11-13 | running it twice equals running it once; on an empty store it changes nothing |
| `Scenarios.CreateAtAppends` | src/application/use-cases/create-transaction.use-case.ts:25-31 | a valid create appends the transaction with the generated id |
| `Scenarios.AllInWindow` | src/application/use-cases/get-statistics.use-case.ts:16-37 | when every stored transaction is in the window, the statistics are the reduction of all of them |
| `Scenarios.AggregateTenTwentyThirty` | test/app.e2e-spec.ts:183-201 | amounts 10, 20, 30 reduce to count 3, sum 60, avg 20, min 10, max 30 |
| `Scenarios.AggregateQuarterPair` | test/app.e2e-spec.ts:226-238 | amounts 25.5 and 74.5 reduce to count 2, sum 100, avg 50, min 25.5, max 74.5 |
| `Scenarios.TenTwentyThirty` | test/app.e2e-spec.ts:180-202 | three creates of 10, 20, 30 stamped 30 s ago, then get-statistics, give {3, 60, 20, 10, 30} |
| `Scenarios.LifecycleScenario` | test/app.e2e-spec.ts:214-247 | clear gives count 0; then two creates of 25.5 and 74.5 give {2, 100, 50, 25.5, 74.5}; clearing again gives count 0 |
| `Scenarios.AverageFromUnroundedSum` | src/application/use-cases/get-statistics.use-case.ts:26-34 | two amounts of 0.004 give sum 0.01 and avg 0.00, whereas averaging the rounded sum would give 0.01 |

## Left out

- The HTTP controller and its mapping of error messages to status codes. It is presentation glue; the model uses the `TxError` error kind instead.
- Framework wiring and process code: modules, dependency injection, throttling, logging, API documentation, security headers, bootstrap and the health probe. These are configuration and I/O.
- Request schema validation, including ISO 8601 parsing. Timestamps arrive already parsed into milliseconds.
- The repository interface. It is a list of method signatures with no behaviour, so the use cases are written directly against the in-memory store.
- The wall clock. Every clock reading is a parameter. The create use case takes the use case's reading and the entity's reading separately.
- Id generation. The generated id is a parameter of the create use case.
- IEEE-754 doubles. Amounts and sums are exact reals, so float summation order and float rounding of `x * 100` are not modelled.
- The engine's limit on call arguments. `Math.min(...amounts)` and `Math.max(...amounts)` fail when the window holds more amounts than one call accepts. `Min`, `Max` and `Aggregate` have no such bound.
- Promises and async plumbing, and the debug log line in findAll. They do not change any result.
- Concurrency as such. Every repository method body is synchronous (src/infrastructure/repositories/in-memory-transaction.repository.ts:9-34), and Node runs one call to completion before the next. Concurrent creates therefore become a sequence of `Save` steps, which `SaveAllAppends` and `SavesFromEmpty` cover.
- The snapshot semantics of findAll (a copy, not a live view). In a value model every result is already independent of later changes.
