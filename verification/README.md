# Wallet ledger: a verified model

The wallet keeps users, one balance row per account `(username, parent_token)` and an
append-only statement log per account. Any number of HTTP servers and queue consumers run
deposits, withdrawals and member creations against the same MongoDB database, with no lock
of their own; money is stored as Decimal128 but added through `float64`. This project models
that system and proves what its ledger, its arithmetic, its queues and its load test promise.

Check everything with `dafny verify dfyconfig.toml` (Dafny 4.11).

## How it is built

**Arithmetic.** `Binary64` defines rounding to the nearest double, ties to even, and proves
it against a definition of what a double is. `DecimalUtils` models stored decimals as integer
counts of 1e-8, and finds the exact bounds up to which the detour through `float64` does no
harm.

**Ledger.** `WalletService` holds the ledger rules as functions. `MongoStore` holds the
collections and what MongoDB guarantees: unique indexes, snapshot reads, write conflicts,
atomic commit. `SerialWallet` says what a transaction body does to a database it has to
itself. `ConcurrentWallet` is the real system: a transition system in which each step is one
repository call of one client, any call may fail, commits may fail after being applied, and
clients may vanish. `LedgerProofs` holds the invariant; `LedgerTheorems`, `Serializability`,
`ClockTheorem` and `Members` state what follows for every run. Nothing in the code locks: the
argument is that each statement insert is paired with an update of the same balance row, so
that of two overlapping transactions on an account at most one commits
(`LedgerTheorems.OverlapsDoNotCommit`). `StuckMembers` follows accounts left without a row, and
`Arrivals` sees the system from outside: from the call that arrives to what its caller is told.
`WalletUseCase` has the use cases and the adapter in their imperative form, proved to do what
`SerialWallet` says. `BalanceCache` and `StatementHistory` cover the cache and the trimming of
statement histories.

**Queues and workers.** `RequestReply` is the request/reply protocol over RabbitMQ and Redis
for any number of callers. `KafkaConsumer`, `RabbitConsumer` and `RedisConsumer` are the
handle-then-acknowledge loops with crashes and restarts. `KafkaLoadTest` is the bounded job
channel with its worker pool, counters and shutdown.

Runs are sequences of steps, and the main results hold for every run, of any length and any
interleaving. A run starts from any database that satisfies `MongoStore.Consistent`: each
account's statements start from zero and end at its balance (a row without statements has a
zero balance), and each active balance row has an active user.

## What the proofs found

- Adding is exact up to one unit above 2^24 and not beyond (`DecimalUtils.ExactThreshold`);
  a stored decimal survives `float64` up to one unit above 2^26 and not beyond
  (`DecimalUtils.RoundTripThreshold`).
- Up to a balance of 2^25 a deposit raises the balance if and only if its amount is more than
  half a unit; from one unit above 2^25 on, larger deposits can vanish too
  (`WalletService.DepositRaisesExactly`, `WalletService.DepositThreshold`).
- The epsilon comparison tells unequal decimals apart only up to two units; two and three
  units already compare equal (`DecimalUtils.UnequalThreshold`). Two units apart it never
  errs within range (`DecimalUtils.CompareRejectsApart`).
- The chain of statements needs no clock, but the balance consistency check does. Two
  statements stamped in the same millisecond can lock a sound account out
  (`ClockTheorem.SameMillisecondLocksOut`); `SerialWallet.CheckPassesExactly` says when the
  check passes.
- The withdrawal's check outside the transaction compares the unrounded amount, the guard
  inside the rounded one. With the balance unchanged the guard never fires, at any magnitude
  (`WalletService.GuardAfterPrecheck`).
- A member creation whose second insert fails leaves a user without a balance row
  (`StuckMembers.CreationSticks`). Such an account stays stuck: no later creation of it
  answers 200 and no deposit or withdrawal on it is ever committed
  (`StuckMembers.StuckForever`).
- A balance query can be answered with another account's cached balance if and only if the
  query's username has a colon and the account it then collides with exists; that account's
  parent token has a colon too (`BalanceCache.ConfusedExactly`, `BalanceCache.AnswersAnother`).
  Validated usernames have none, and neither do generated tokens.
- The RabbitMQ queue is declared to be deleted when unused. A message is lost if and only if
  it expired, was in the queue or in hand when the last consumer left, or was published while
  there was no queue (`RabbitConsumer.LostExactly`).
- A message is handled twice over RabbitMQ if and only if it is handled after a consumer
  crashed between handling and acknowledging it (`RabbitConsumer.HandledTwiceExactly`), and
  over Kafka, with one consumer at a time, if and only if a consumer joined at a committed
  offset that had been handled and went on to handle (`KafkaConsumer.HandledTwiceExactly`).
- A Redis stream entry is lost if and only if its consumer dies with it in hand or the reply
  that carried it is lost (`RedisConsumer.LostExactly`).
- Over Redis, callers get their own replies in every run if and only if no two of them use the
  same correlation id (`RequestReply.MatchesExactly`); over RabbitMQ they always do.
- `ClearOldStatements` with a `keepCount` of zero keeps everything, because a limit of zero
  means no limit (`StatementHistory.ClearKeepsNewest`).
- The load test's counters miss jobs if and only if it is asked for no workers and has sent
  some (`KafkaLoadTest.AllCountedExactly`).

## Model

| member | source | states |
|---|---|---|
| `Binary64.FlNearest` | pkg/utils/decimal_utils.go:13-39 | Every float operation rounds to a double such that no double is closer to the exact value (IEEE 754-2019, section 4.3.1) |
| `Binary64.TieGoesEven` | pkg/utils/decimal_utils.go:13-17 | Halfway between two neighbours rounding takes the even one |
| `Binary64.FlMonotone` | pkg/utils/decimal_utils.go:13-39 | Rounding keeps order |
| `Binary64.RelativeError` | pkg/utils/decimal_utils.go:13-39 | One rounding is off by at most the fraction 2^-53 |
| `Binary64.HalfUlp` | pkg/utils/decimal_utils.go:13-39 | Up to 2^e one rounding is off by at most 2^(e-54) and does not cross 2^e |
| `DecimalUtils.SumExact` | pkg/utils/decimal_utils.go:26-39 | Within 2^24 plus one unit the sum through float64 is the exact sum |
| `DecimalUtils.ExactThreshold` | pkg/utils/decimal_utils.go:26-39 | All sums of decimals up to a bound are exact if and only if the bound is at most 2^24 plus one unit |
| `DecimalUtils.RoundTripThreshold` | pkg/utils/decimal_utils.go:13-23 | All decimals up to a bound survive decimal to float to decimal if and only if the bound is at most 2^26 plus one unit |
| `DecimalUtils.LargeFloatSurvives` | pkg/utils/decimal_utils.go:13-23 | From 2^26 on it is the float that survives float to decimal to float |
| `DecimalUtils.StoredFloatNoLarger` | pkg/utils/decimal_utils.go:13-23 | A float no larger than a stored balance, stored and read back, is still no larger, at any magnitude |
| `DecimalUtils.FromFloatOdd` | pkg/utils/decimal_utils.go:13-17 | Formatting commutes with negation |
| `DecimalUtils.SumNonNegative` | pkg/utils/decimal_utils.go:26-39 | Sums of non-negative decimals are non-negative, at any magnitude |
| `DecimalUtils.CompareAcceptsEqual` | pkg/utils/decimal_utils.go:58-72 | Equal decimals compare equal, at any magnitude |
| `DecimalUtils.CompareRejectsApart` | pkg/utils/decimal_utils.go:58-72 | Within range, decimals two or more units apart never compare equal |
| `DecimalUtils.UnequalThreshold` | pkg/utils/decimal_utils.go:58-72 | All unequal decimals up to a bound compare unequal if and only if the bound is at most two units |
| `DecimalUtils.RaiseThreshold` | pkg/utils/decimal_utils.go:26-39 | Adding any positive decimal raises every balance up to a bound if and only if the bound is at most 2^25 |
| `DecimalUtils.OneUnitCounts` | pkg/utils/decimal_utils.go:26-39 | Up to 2^25, far beyond where all sums are exact, adding one unit still is exact |
| `DecimalUtils.StoresNothing` | pkg/utils/decimal_utils.go:13-17 | A positive amount is stored as zero if and only if it is at most half a unit |
| `WalletService.DepositValidExactly` | internal/domain/services/wallet_service.go:32-43 | A deposit request is accepted if and only if it has a positive amount, a name and a parent, and each refusal tells the first thing missing |
| `WalletService.WithdrawValidExactly` | internal/domain/services/wallet_service.go:46-60 | A withdrawal request is accepted if and only if, besides, its amount is at most the balance; all of it may be withdrawn |
| `WalletService.WithdrawAll` | internal/domain/services/wallet_service.go:94-133 | In range, withdrawing the balance as it reads is accepted and leaves exactly nothing |
| `WalletService.StatementIsLedgerLine` | internal/domain/services/wallet_service.go:63-133 | A created statement starts at the balance, ends at its sum with the amount, is never overdrawn, and has the sign of its kind |
| `WalletService.StatementFollowsCalculation` | internal/domain/services/wallet_service.go:194-228 | Statements are created exactly when CalculateNewBalance succeeds, and end at its result |
| `WalletService.ParentStatementIsLedgerLine` | internal/domain/services/wallet_service.go:136-175 | The parent's statement is a withdrawal line of the parent from its balance, created if and only if the balance covers it |
| `WalletService.GuardAfterPrecheck` | internal/domain/services/wallet_service.go:46-60 | A withdrawal that passed the check against a balance passes the rounded guard against the same balance |
| `WalletService.AmountsCancel` | internal/domain/services/wallet_service.go:136-175 | The parent's withdrawal and the child's deposit of one request are opposite amounts, filed under parent and child |
| `WalletService.TransferConserves` | internal/domain/services/wallet_service.go:63-175 | In range, parent and child together hold the same total before and after |
| `WalletService.WithdrawUndoesDeposit` | internal/domain/services/wallet_service.go:63-133 | In range, withdrawing what was deposited is accepted and restores the balance exactly |
| `WalletService.DepositRaisesExactly` | internal/domain/services/wallet_service.go:63-91 | Up to 2^25 a deposit raises the balance if and only if its amount is more than half a unit, and otherwise leaves it as it was |
| `WalletService.DepositThreshold` | internal/domain/services/wallet_service.go:63-91 | Deposits of more than half a unit raise all balances up to a bound if and only if the bound is at most 2^25 |
| `MongoStore.LookupsFind` | internal/infrastructure/adapters/db/mongo_adapter.go:135-175 | Under the unique indexes both user lookups return the one active user with that account or token |
| `MongoStore.LookupsExactly` | internal/infrastructure/adapters/db/mongo_adapter.go:135-175 | The lookups find a user if and only if an active one has that account or token |
| `MongoStore.CollidesExactly` | internal/infrastructure/adapters/db/mongo_adapter.go:94-96 | An insert is refused if and only if somebody has the account or the token |
| `MongoStore.ChainAppend` | internal/application/usecases/wallet_usecase.go:327-351 | A ledger line that starts at the balance extends the account's chain to its after-credit |
| `MongoStore.CommitGrows` | internal/infrastructure/adapters/db/mongo_adapter.go:289-314 | Committing one statement with the matching balance changes just that row's balance and that account's log, keeping token and status, and keeps the database consistent |
| `SerialWallet.StatementFiledUnderRequest` | internal/infrastructure/adapters/db/mongo_adapter.go:135-154 | A statement is filed under the account of the request, where later lookups find it |
| `SerialWallet.OutcomeMoves` | internal/application/usecases/wallet_usecase.go:289-444 | An accepted transaction moves the stored amount: one statement, one balance, nothing else, and a reply that tells the balances before and after |
| `SerialWallet.OutcomeExactly` | internal/application/usecases/wallet_usecase.go:289-444 | A transaction is accepted if and only if the row is active, agrees with the last statement and covers the amount; otherwise the answer tells which of these failed |
| `SerialWallet.ProcessKeepsConsistent` | internal/application/usecases/wallet_usecase.go:289-444 | A body alone on a consistent database keeps it consistent, only adds to it and dereferences no missing user |
| `SerialWallet.ProcessReadsOwnAccount` | internal/application/usecases/wallet_usecase.go:289-444 | The outcome depends on nothing but the account's own row, statements and user: while the row is unwritten it is the same later |
| `SerialWallet.NewestIsPicked` | internal/infrastructure/adapters/db/mongo_adapter.go:319-342 | If the last committed statement is strictly the newest, the last-statement query answers the balance |
| `SerialWallet.CheckPassesExactly` | internal/domain/services/wallet_service.go:178-191 | Where earlier credits differ from the balance by two units or more, the check passes on every answer if and only if the last statement is strictly the newest |
| `LedgerProofs.CommitStep` | internal/application/usecases/wallet_usecase.go:336-351 | At commit the account is as the snapshot showed it, so the commit does what the body alone would do now |
| `LedgerProofs.ClientUndisturbed` | internal/infrastructure/adapters/db/mongo_adapter.go:289-314 | Other clients' steps leave a client's snapshot, decision and held row valid |
| `LedgerProofs.RunKeeps` | internal/application/usecases/wallet_usecase.go:47-227 | In every run the invariant holds: consistent database, at most one holder per row, every open transaction as its snapshot decided, history replaying to the database |
| `Serializability.RunIsSerial` | internal/application/usecases/wallet_usecase.go:47-139 | Every run equals its committed bodies run one at a time in commit order: same database, same receipts, nothing from aborted ones |
| `Serializability.AloneDoesBody` | internal/application/usecases/wallet_usecase.go:289-444 | A validated client nobody interferes with goes through in seven calls, with the serial body's database and receipt |
| `Arrivals.RunServes` | internal/application/usecases/wallet_usecase.go:47-227 | In every run a client that arrived with a deposit is a deposit of that request, and likewise for withdrawals and creations |
| `Arrivals.CommitsWereAsked` | internal/application/usecases/wallet_usecase.go:47-139 | Every committed transaction was asked for by a call of its kind with its request |
| `Arrivals.RunTellsBalances` | internal/application/usecases/wallet_usecase.go:353-365 | In every run each commit moves its amount between the states before and after it in commit order, and its reply tells the account's balances there |
| `Arrivals.DepositGoesThrough` | internal/application/usecases/wallet_usecase.go:47-83 | On a consistent database, from its arrival on, a valid deposit that nobody interferes with moves its amount in seven calls |
| `Arrivals.WithdrawalGoesThrough` | internal/application/usecases/wallet_usecase.go:86-139 | Likewise a withdrawal the balance covers, in eight calls, its check included |
| `Arrivals.MovedExactly` | internal/application/usecases/wallet_usecase.go:345-351 | In range the row then holds exactly the amount more or less |
| `Arrivals.RunStaysOpen` | internal/infrastructure/adapters/db/mongo_adapter.go:297-302 | An active account stays active under the same token for the rest of every run |
| `Arrivals.NextDepositGoesThrough` | internal/infrastructure/adapters/db/mongo_adapter.go:297-302 | After a committed transaction the account is active, and its next valid deposit goes through if nobody interferes and the last statement is in order |
| `Arrivals.ArrivalAnswers` | internal/application/usecases/wallet_usecase.go:51-56 | A request that is incomplete, or a member's name that is invalid, is answered 400 on arrival, and any other is started |
| `Arrivals.PreCheckAnswers` | internal/application/usecases/wallet_usecase.go:90-112 | The check before a withdrawal answers 404 without an active account, 400 without cover, and goes on if and only if the request is valid |
| `Arrivals.FailureAnswers` | internal/application/usecases/wallet_usecase.go:292-351 | A failed query for user or balance is answered 404, any other failed call 500 |
| `Arrivals.FailedCommitApplies` | internal/application/usecases/wallet_usecase.go:70-77 | A commit that fails has taken no effect or moved the money whole |
| `LedgerTheorems.RunKeepsChain` | internal/application/usecases/wallet_usecase.go:289-444 | In every run each account's statements chain from zero to its balance |
| `LedgerTheorems.RunNeverOverdraws` | internal/domain/services/wallet_service.go:94-133 | In every run no balance is negative, although the withdrawal check reads outside the transaction |
| `LedgerTheorems.RunOnlyGrows` | internal/application/usecases/wallet_usecase.go:289-444 | Between any two moments of a run no user, row or statement is lost or rewritten, rows keep token and status, and an unwritten row has the same statements |
| `LedgerTheorems.BalanceMovesWithStatement` | internal/application/usecases/wallet_usecase.go:336-351 | Between any two moments of a run a balance moves only together with a new statement of its account |
| `LedgerTheorems.OverlapsDoNotCommit` | internal/infrastructure/adapters/db/mongo_adapter.go:289-314 | Two transactions on one account never both come to commit, and at its commit nothing was committed on the account since a transaction's snapshot |
| `LedgerTheorems.RunNeverPanics` | internal/application/usecases/wallet_usecase.go:327-334 | No deposit or withdrawal dereferences a missing user |
| `LedgerTheorems.AccountAddsUp` | internal/domain/services/wallet_service.go:63-133 | In range, a balance is its account's deposits less its withdrawals |
| `LedgerTheorems.RunConserves` | internal/application/usecases/wallet_usecase.go:86-139 | In every run in range, all balances together are all committed deposits less all committed withdrawals |
| `LedgerTheorems.RunFoldsRequests` | internal/domain/services/wallet_service.go:194-228 | Each stored balance is CalculateNewBalance folded over the account's committed requests in commit order, at any magnitude |
| `LedgerTheorems.RunNeverDrifts` | pkg/utils/decimal_utils.go:13-39 | In range the float-computed balance is the exact integer sum of the amounts, however long the run |
| `ClockTheorem.RunNeverInconsistent` | internal/infrastructure/adapters/db/mongo_adapter.go:319-342 | If the stored clock advances between an account's statements, clock order is commit order in every run and no request is refused as inconsistent |
| `ClockTheorem.SameMillisecondLocksOut` | internal/domain/services/wallet_service.go:178-191 | On a consistent database with two statements in one millisecond a deposit can be refused as inconsistent |
| `Members.CreatedOnce` | internal/application/usecases/wallet_usecase.go:142-227 | At most one creation of an account answers 200; the account had no user at the start and has user and row at the end |
| `Arrivals.CreationGoesThrough` | internal/application/usecases/wallet_usecase.go:142-227 | A creation that nothing disturbs is answered 200 after four calls, with the user under its parent and an active zero row under the request's token |
| `Arrivals.CreatedIsOpen` | internal/application/usecases/wallet_usecase.go:199-217 | In every run a member whose creation answered 200 has an active row under the request's token |
| `Arrivals.FirstDepositGoesThrough` | internal/application/usecases/wallet_usecase.go:199-217 | The first deposit of a member just created finds its balance of zero and goes through |
| `Arrivals.CreationAnswers` | internal/application/usecases/wallet_usecase.go:153-217 | A creation is answered 409 if and only if an active user is found, 404 if and only if no active parent is, 500 when a write fails, and 200 otherwise |
| `Arrivals.FailedInsertApplies` | internal/application/usecases/wallet_usecase.go:191-217 | An insert that fails has taken no effect or its whole effect |
| `Arrivals.RunInsertsValidNames` | internal/application/usecases/wallet_usecase.go:146-151 | Every user inserted in any run has a valid name |
| `Members.RunOneOwner` | internal/application/usecases/wallet_usecase.go:191-217 | In every run at most one creation of an account is inserting its row or has answered 200 |
| `StuckMembers.RunInsertsOnce` | internal/application/usecases/wallet_usecase.go:191-197 | In every run at most one creation inserts an account's user, whatever becomes of it later, and none where there was one |
| `StuckMembers.RowlessExactly` | internal/application/usecases/wallet_usecase.go:191-217 | A new account has a user and no balance row if and only if the user's insert took effect and the row's did not |
| `StuckMembers.CreationSticks` | internal/application/usecases/wallet_usecase.go:211-217 | Any account that can be created gets stuck when its row insert fails: user, no row, answer 500 |
| `StuckMembers.StuckForever` | internal/application/usecases/wallet_usecase.go:153-217 | A stuck account stays stuck in every continuation: no creation of it answers 200, and no deposit or withdrawal on it is ever committed |
| `Members.CreationSparesOthers` | internal/infrastructure/adapters/db/mongo_adapter.go:178-286 | No call of a creation changes an existing user, row or statement; the only new row is the member's, at zero |
| `Members.RunKeepsForest` | internal/application/usecases/wallet_usecase.go:162-191 | In every run accounts and tokens stay distinct and each created user's parent was there before it |
| `Members.LineageDescends` | internal/application/usecases/wallet_usecase.go:162-191 | Walking from child to parent goes strictly back in creation order, so it never returns |
| `Members.LineageReachesSeed` | internal/application/usecases/wallet_usecase.go:162-191 | From every user the walk up ends at a seed user |
| `WalletUseCase.MongoAdapter.GetLastWalletStatement` | internal/infrastructure/adapters/db/mongo_adapter.go:319-342 | Answers the credit of some statement with the largest datetime in the session's view, zero when there is none |
| `WalletUseCase.MongoAdapter.UpdateAccountBalance` | internal/infrastructure/adapters/db/mongo_adapter.go:289-314 | Buffers the new balance, or fails and buffers nothing: always when no row matches, the row changed since the snapshot, or another open transaction wrote it |
| `WalletUseCase.MongoAdapter.CommitTransaction` | internal/infrastructure/adapters/db/mongo_adapter.go:470-473 | Shows all buffered writes at once; after an error either all or none |
| `WalletUseCase.WalletUseCase.ProcessTransaction` | internal/application/usecases/wallet_usecase.go:289-444 | Decides as the serial body on the session's view, buffers exactly its statement and balance, and answers each failed call with its own reply |
| `WalletUseCase.WalletUseCase.RunTransaction` | internal/application/usecases/wallet_usecase.go:58-82 | A 200 means the serial body was applied whole, a failed commit either applied or not, any other answer left the database alone |
| `WalletUseCase.WalletUseCase.HandleDeposit` | internal/application/usecases/wallet_usecase.go:47-83 | A 200 means the stored amount moved and tells the balances before and after; 400, 404 and 500 are given if and only if the request, the account or a call is at fault, and change nothing short of a failed commit |
| `WalletUseCase.WalletUseCase.HandleWithdraw` | internal/application/usecases/wallet_usecase.go:86-139 | Likewise, with the check against the balance first; alone, a request past that check is covered |
| `WalletUseCase.WalletUseCase.HandleCreateMember` | internal/application/usecases/wallet_usecase.go:142-227 | The database is as before, has the new user, or has user and active zero row; the user alone only with a 500; when no call fails 400, 409, 404, 500 and 200 are given exactly as name, member, parent and unique indexes say |
| `BalanceCache.KeysInjective` | internal/application/usecases/wallet_usecase.go:450 | Accounts whose usernames have no colon never share a cache key |
| `BalanceCache.CacheKeyReads` | internal/application/usecases/wallet_usecase.go:450 | The cache key reads balance, parent token and username with colons between |
| `StringUtils.ValidCharCodes` | pkg/utils/string_utils.go:47-54 | The accepted characters are the ASCII digits, letters and underscore |
| `StringUtils.ValidNamesExactly` | pkg/utils/string_utils.go:38-57 | One repeated valid character is a valid name if and only if there are three to fifty of them, and one invalid character spoils any name |
| `BalanceCache.ValidUsernamesAreColonFree` | pkg/utils/string_utils.go:38-57 | Validated usernames have no colon |
| `BalanceCache.ConfusedExactly` | internal/application/usecases/wallet_usecase.go:450 | Among accounts with validated usernames, a query shares another one's key if and only if its username has a colon and its twin is among them |
| `BalanceCache.MistakableExactly` | internal/application/usecases/wallet_usecase.go:450 | An account with a validated username shares its key with some other query if and only if its parent token has a colon |
| `BalanceCache.AnswersAnother` | internal/application/usecases/wallet_usecase.go:447-471 | For every such account a reader answers a query that names no account with that account's balance |
| `BalanceCache.BalanceReader.GetAccountBalanceWithCache` | internal/application/usecases/wallet_usecase.go:447-471 | An answer is a balance in force for that very account at a read cached at most 300 seconds before the question, or at a time since |
| `StatementHistory.StatementCollection.ClearOldStatements` | internal/infrastructure/adapters/db/mongo_adapter.go:396-445 | Deletes the account's statements that the query did not return, and nothing when it returned none |
| `StatementHistory.ClearKeepsNewest` | internal/infrastructure/adapters/db/mongo_adapter.go:396-445 | With datetimes in commit order exactly the newest min(n, keepCount) statements remain for keepCount >= 1, all for zero, in order, and other accounts are untouched |
| `StatementHistory.ClearKeepsAccount` | internal/infrastructure/adapters/db/mongo_adapter.go:319-445 | The last statement stays the same and newest, and the balance is the first kept before-credit plus the kept amounts |
| `StatementHistory.SuffixAddsUp` | internal/infrastructure/adapters/db/mongo_adapter.go:396-445 | From any point of a chain on, the final credit is the credit there plus the amounts after it |
| `StatementHistory.ChainIsExact` | internal/domain/services/wallet_service.go:63-133 | In range every statement of a chain adds up without rounding |
| `RequestReply.ReturnsOwnReply` | internal/infrastructure/adapters/queue/rabbitmq/adapter.go:107-196 | In every run, with late, lost and repeated replies, a call that returns a response returns one made for its own message; only Redis needs fresh correlation ids for it |
| `RequestReply.ReturnsOwnResult` | internal/infrastructure/adapters/queue/rabbitmq/adapter.go:286-346 | What a call returns, over either transport, is the result a handler gave for a message the caller had sent with its own request |
| `RequestReply.CallIsAnswered` | internal/infrastructure/adapters/queue/redis/adapter.go:122-182 | Over both transports a call that nothing disturbs returns what its handler answered |
| `RequestReply.ReplyListReads` | internal/infrastructure/adapters/queue/redis/adapter.go:129 | The Redis reply list is named after the correlation id |
| `RequestReply.HeadIsOwn` | internal/infrastructure/adapters/queue/redis/adapter.go:122-182 | What waits first at a caller's reply address answers that caller's message and bears its correlation id |
| `RequestReply.CorrelationAlwaysMatches` | internal/infrastructure/adapters/queue/rabbitmq/adapter.go:180-196 | On the exclusive reply queue the correlation check never rejects |
| `RequestReply.CollisionCrossesReplies` | internal/infrastructure/adapters/queue/redis/adapter.go:127-137 | Over Redis any two callers given the same id can be served each other's reply |
| `RequestReply.MatchesExactly` | internal/infrastructure/adapters/queue/redis/adapter.go:127-182 | Over Redis every run returns callers their own replies if and only if no two callers are given the same id |
| `KafkaConsumer.CommittedIsHandled` | internal/infrastructure/adapters/queue/kafka/adapter.go:300-323 | Across crashes, restarts and failed commits, every offset below the committed one has been through handleMessage |
| `KafkaConsumer.CommitStands` | internal/infrastructure/adapters/queue/kafka/adapter.go:318-320 | A commit that succeeds moves the committed offset just past the message handled, to where its consumer goes on; one that fails leaves it |
| `KafkaConsumer.UndisturbedHandlesOnce` | internal/infrastructure/adapters/queue/kafka/adapter.go:300-323 | With one consumer and no crash, offsets are handled once each, in order, whether commits succeed or not |
| `KafkaConsumer.HandledTwiceExactly` | internal/infrastructure/adapters/queue/kafka/adapter.go:300-323 | With one consumer at a time some message is handled twice if and only if a consumer joined at a committed offset that had been handled and handled something |
| `KafkaConsumer.CrashHandlesTwice` | internal/infrastructure/adapters/queue/kafka/adapter.go:315-319 | One such run: a crash between handling and committing |
| `KafkaConsumer.Reader.ConsumeMessages` | internal/infrastructure/adapters/queue/kafka/adapter.go:300-323 | The loop goes on after failed fetches and commits until it is cancelled, handles each message fetched once and in order, and the last successful commit stands |
| `KafkaConsumer.FindHeader` | internal/infrastructure/adapters/queue/kafka/adapter.go:340-345 | Finds the value of the first header with the key, or the empty string |
| `RabbitConsumer.AckedIsHandled` | internal/infrastructure/adapters/queue/rabbitmq/adapter.go:286-322 | Across crashes every acknowledged message was dispatched by its type or refused first, and every message is in exactly one place: ready, in hand, acknowledged, expired or dropped with the queue |
| `RabbitConsumer.HandledAsTyped` | internal/infrastructure/adapters/queue/rabbitmq/adapter.go:302-315 | In every run each handling is the deposit, withdrawal or member handler, or the refusal, that the message's type calls for, and every acknowledged message has one |
| `RabbitConsumer.LostExactly` | internal/infrastructure/adapters/queue/rabbitmq/adapter.go:86-105 | A message is lost if and only if it expired, was in the queue or in hand when the last consumer left, or was published while there was no queue |
| `RabbitConsumer.LastCrashLoses` | internal/infrastructure/adapters/queue/rabbitmq/adapter.go:90-98 | One such run: the only consumer crashes and takes an unhandled message with it |
| `RabbitConsumer.HandledTwiceExactly` | internal/infrastructure/adapters/queue/rabbitmq/adapter.go:286-322 | With any number of consumers a message is handled twice if and only if one is handled after a consumer crashed between handling and acknowledging it |
| `RabbitConsumer.CrashFreeHandlesOnce` | internal/infrastructure/adapters/queue/rabbitmq/adapter.go:255-322 | Without crashes no message is handled twice, with any number of consumers |
| `RabbitConsumer.Adapter.HandleMessage` | internal/infrastructure/adapters/queue/rabbitmq/adapter.go:286-346 | Handles once as the type calls for and acknowledges; the answer carries that outcome, the message's own address and its correlation id, and is sent when there is an address or the message is malformed |
| `RabbitConsumer.Adapter.Consume` | internal/infrastructure/adapters/queue/rabbitmq/adapter.go:276-281 | The loop left alone handles, answers and acknowledges what is waiting, once each, first come first served |
| `RedisConsumer.HandledAtMostOnce` | internal/infrastructure/adapters/queue/redis/adapter.go:229-265 | With any consumers, crashes and restarts no entry is handled twice, and every acknowledged entry was handled |
| `RedisConsumer.OrphanStaysLost` | internal/infrastructure/adapters/queue/redis/adapter.go:238-246 | An entry given out, not handled and in no consumer's hands is never handled |
| `RedisConsumer.LostExactly` | internal/infrastructure/adapters/queue/redis/adapter.go:238-265 | In every run the entries lost are exactly those whose consumer crashed with them in hand or whose reply was lost |
| `RedisConsumer.Adapter.ConsumeMessages` | internal/infrastructure/adapters/queue/redis/adapter.go:229-265 | The loop goes on after failed reads until it is cancelled, is given as many entries as its reads ask for, and handles them in order, at most once each, all of them unless a reply is lost |
| `KafkaLoadTest.RunKeeps` | internal/infrastructure/web/test_kafka.go:212-298 | In every run jobs leave as 0, 1, 2, ... and each is in the channel, with exactly one worker, or counted once; no counter update is lost |
| `KafkaLoadTest.AllCountedExactly` | internal/infrastructure/web/test_kafka.go:336-359 | After the wait published plus errors is the number sent if and only if there was a worker or nothing was sent, and there is one latency per published job |
| `KafkaLoadTest.CountersTell` | internal/infrastructure/web/test_kafka.go:232-251 | After the wait the published counter is the number of publishings that succeeded and the error counter the number that failed |
| `KafkaLoadTest.LatenciesTell` | internal/infrastructure/web/test_kafka.go:230-250 | After the wait each latency is kept as often as a successful publishing measured it |
| `KafkaLoadTest.ChannelBounded` | internal/infrastructure/web/test_kafka.go:337 | The channel never holds more than two batches, and the sender waits for room if and only if it holds them |
| `KafkaLoadTest.NoSendAfterClose` | internal/infrastructure/web/test_kafka.go:355-358 | Once the channel is closed the sender never sends again |
| `KafkaLoadTest.SomebodyMoves` | internal/infrastructure/web/test_kafka.go:336-359 | Until the handler is finished somebody can take a step |
| `KafkaLoadTest.RunEnds` | internal/infrastructure/web/test_kafka.go:212-359 | Every step uses up some of a finite measure, so no run is longer than it is at the start |
| `KafkaLoadTest.SendKafkaJobsBatched` | internal/infrastructure/web/test_kafka.go:256-298 | Sends 0, 1, 2, ... up to the first job before which the time is up, at the start of a batch or waiting for room, and all of them if there is none |
| `KafkaLoadTest.CalculateKafkaStats` | internal/infrastructure/web/test_kafka.go:159-209 | Maxima are the largest samples, the latency average is the truncated mean, the lag average the mean, the success rate the published share of all in percent, and publish rate times duration is the count |

## Left out

- Overflow, subnormal numbers, infinities, NaN, the sign of zero and the parse error of a Decimal128 with more than 34 digits: amounts near those limits are not money.
- Subtraction, absolute value, zero and sign tests on decimals, and the 1e15 amount limit: no ledger operation uses them.
- Statement and document ids, status flags, type name, channel and description: copied through unchanged. `UpdateUser` and balances being deactivated: no use case does either.
- `processDeposit` and `processWithdraw` are one method, `ProcessTransaction`: they differ in the statement they create and in the status of a failed creation, which a deposit never has in range.
- WalletUseCase.WalletUseCase.HandleWithdraw: its check outside the transaction reads another state than the body in a concurrent run, so serial equivalence is stated for the bodies; the concurrent system does include that check.
- SerialWallet.CheckPassesExactly: the direction from clock order to passing holds at all magnitudes and for all credits; the other one needs earlier credits two units away, because closer ones may compare equal.
- StatementHistory.ClearKeepsNewest: assumes datetimes in commit order and no insert between the query and the deletion; with ties the server chooses which of the equally old to keep. A document whose id fails to decode is not modelled.
- BalanceCache.BalanceReader.GetAccountBalanceWithCache: claims bounded staleness, not freshness, since deposits and withdrawals leave the cache alone; the programs' entry points set no cache at all.
- KafkaLoadTest.CalculateKafkaStats: rates and the lag average are computed over reals, and the duration is taken to be positive.
- KafkaConsumer.CommittedIsHandled: one partition; consumers of a group that rebalances are consumers that crash and join. The dispatch by message type is modelled for RabbitMQ only, where it is the same.
- KafkaConsumer.HandledTwiceExactly: a consumer group gives a partition to one consumer at a time, so the condition is stated for such runs; overlap during a rebalance is covered by `CommittedIsHandled` only.
- RabbitConsumer.AckedIsHandled: message kinds are given, not parsed; upper-casing of the type and JSON decoding are not modelled. A consumer that is stopped counts as one that crashes, and a restart of the broker, which also loses the queue, is not modelled.
- RequestReply.ReturnsOwnReply: over Redis it assumes fresh correlation ids. Randomness behind ids and tokens is a parameter throughout.
- Matching replies over Kafka: its client can read from channels closed on timeout, so the claim is not made.
- The wiring of the RabbitMQ and Redis load tests, whose monitor and handler read the same channel, and the Redis `PublishTransactionFireAndForget`, which does nothing.
- `GetMultipleBalances`, `GetWalletStatements`, `IsParentWithdrawRequired`, sanitising and masking of strings: they would only add easy members.
- HTTP routing, configuration, the adapter factory, health checks, logging, printed reports, and the internals of the MongoDB, AMQP, Kafka and Redis drivers beyond the guarantees named above.
