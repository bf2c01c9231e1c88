# Ledger core of the Spring banking API, in Dafny

This project models the ledger logic of a Spring Boot banking service with the framework stripped away. The service has users, accounts and transactions.

The whole store is one immutable value, `Ledger.Bank`. It holds users, accounts, the movement (transaction) sequence and the identity counters. Every service operation is a pure function from a store, a caller and a request to `Ok(new store, result)` or an error kind (`Results.Error`).

- Amounts are integer cents: the request type demands at least 0.01.
- Timestamps are integer seconds and calendar days are integer epoch days. `Accounts.StartOfDay(d)` is `d * 86400`.
- A movement's id is its position in the movement sequence (`Repository.IdsArePositions`). Lookups by id still search the key field.

Modules follow the program's structure:

- `Results`: `Option`, `Result` and the error kinds (not found, invalid request, access denied, invalid state, already exists, constraint violation, internal error).
- `JavaText`: the `java.lang.String` behaviour the code relies on. This covers `isBlank`, `trim`, `startsWith`, ASCII `equalsIgnoreCase`, and `split(",")`, which drops trailing empty strings.
- `Ledger`: users, roles and authorities, accounts, movements, the store, and the owner-or-admin guard.
- `Repository`: the JPQL queries of the transaction repository, as filters and signed sums over the movement sequence.
- `Invariant`: the store invariant `Wf`. Every movement is well shaped. Ids, usernames and account numbers are unique. Every balance equals the net effect of the COMPLETED movements touching the account, and is never negative.
- `Engine`: the transaction service. It covers validation, the PENDING record, the balance update, settling to COMPLETED or FAILED, retry, and the read guards.
- `Accounts`: the account service. It covers account-number generation, create, guards, delete, listing and the statement calculator.
- `Users`: the user service (create, get, update, delete) and the default role.
- `RateLimit`: the rate-limiting filter. It covers route limits, client address extraction, the counter key, and the fixed-window count, remaining and rejection decision.
- `Paging`: `createPageable` of the transaction controller.
- `EngineScenarios`, `StatementScenarios`: concrete scenarios taken from the integration tests.

The environment becomes parameters:

- The security context is an explicit `Caller(username, isAdmin)`.
- An optimistic-lock failure is a `conflict` flag given to the settlement.
- `SecureRandom` is a list of draws (sequences of indices into the alphabet).
- The password encoder is a function parameter.
- Redis is a `Counters` value (counts and expiries), with the reported remaining lifetime `ttl` as a parameter.

## Model

Source cells are paths relative to the repository root.

| member | source | states |
|---|---|---|
| Ledger.CallerOf | src/main/java/com/example/springbootapi/entity/User.java:39-59 | a user's only authority is `ROLE_` plus its role; the caller is admin exactly when that authority is `ROLE_ADMIN`, i.e. exactly when the role is ADMIN |
| Ledger.GuardAccount | src/main/java/com/example/springbootapi/service/TransactionService.java:227-229 | looking up an account answers not found first, then access denied unless the caller is admin or owns it |
| Engine.Validate | src/main/java/com/example/springbootapi/service/TransactionService.java:52-84 | a transfer without both ids or to itself, a deposit without a target or a withdrawal without a source is an invalid request, and only those are; otherwise the debited side (credited for a deposit) must exist and be the caller's unless admin, and a transfer's target must exist; the ignored id of a deposit/withdrawal is dropped from the sides |
| Engine.ApplyBalance | src/main/java/com/example/springbootapi/service/TransactionService.java:202-225 | transfer and withdrawal fail exactly when the source balance is below the amount (equality passes), a deposit never does; a lock conflict fails otherwise-good updates; a successful update adds the signed amount to the two sides and changes no other account |
| Engine.TransferConservesMoney | src/main/java/com/example/springbootapi/service/TransactionService.java:204-212 | a completed transfer leaves the sum of the two balances unchanged |
| Engine.Settle | src/main/java/com/example/springbootapi/service/TransactionService.java:97-106 | the attempt ends COMPLETED exactly when there is no conflict and the funds suffice, else FAILED; only that record's status changes; balances move by the signed amount only when COMPLETED |
| Engine.BalanceChangesIffCompleted | src/main/java/com/example/springbootapi/service/TransactionService.java:97-103 | an account's balance changes in a settlement exactly when the movement ends COMPLETED and touches the account |
| Engine.CreateTransaction | src/main/java/com/example/springbootapi/service/TransactionService.java:46-107 | fails with exactly the validation error and then saves nothing; otherwise appends exactly one movement with the next id, the request's kind, amount, sides and time, finalised COMPLETED or FAILED (never an error); every account keeps its number and owner and moves by exactly the movement's contribution to its net effect (its signed amount if COMPLETED and touching, else nothing), so a balance changes exactly when the movement completed and touches it; users and identity counters of users and accounts are unchanged |
| Engine.RetryTransaction | src/main/java/com/example/springbootapi/service/TransactionService.java:111-150 | the retry with the intended access check (see Findings): not found for an unknown id, then access denied unless admin or owner of the side that may create such a movement, then invalid state for a COMPLETED record, then not found for a vanished account; succeeds exactly otherwise, settling the same record again in place against current balances, every account moving by exactly the record's contribution and keeping number and owner |
| Engine.Reattempt | src/main/java/com/example/springbootapi/service/TransactionService.java:123-149 | after the access check: invalid state for a COMPLETED record, then not found exactly when a side's account is gone; succeeds exactly otherwise, COMPLETED exactly when there is no conflict and the debited balance covers the amount, every account moving by exactly the record's contribution, identity counters unchanged |
| Engine.RetryTransactionAsWritten | src/main/java/com/example/springbootapi/service/TransactionService.java:111-150 | the retry as written: access denied exactly when the caller is neither admin nor owner of either side; otherwise the same reattempt |
| Engine.RetryAsWrittenAdmitsMore | src/main/java/com/example/springbootapi/service/TransactionService.java:115-121 | wherever the intended retry does not deny access, the retry as written gives the same result; it admits a caller the intended check denies exactly when that caller owns the credited but not the debited account of a non-deposit |
| Engine.GetTransactionById | src/main/java/com/example/springbootapi/service/TransactionService.java:161-172 | not found exactly when no stored movement carries the id, else access denied or the record; a returned record carries the id and the caller is admin or owns one of its sides; when keys are positions, returned exactly for an id in range whose record the caller may view |
| Engine.GetAllTransactions | src/main/java/com/example/springbootapi/service/TransactionService.java:174-180 | admin only; returns every movement |
| Engine.GetTransactionsByStatus | src/main/java/com/example/springbootapi/service/TransactionService.java:152-159 | the movements with that status the caller may see: all of them for an admin, those with an owned side otherwise (the owner query as intended, see Findings) |
| Engine.GetTransactionsByFromAccountId | src/main/java/com/example/springbootapi/service/TransactionService.java:182-190 | account guard first; then exactly the movements debiting that account |
| Engine.GetTransactionsByToAccountId | src/main/java/com/example/springbootapi/service/TransactionService.java:192-200 | account guard first; then exactly the movements crediting that account |
| Engine.SettlePreservesWf | src/main/java/com/example/springbootapi/service/TransactionService.java:97-106 | settling a non-completed record keeps every balance equal to its completed net effect and non-negative |
| Engine.CreatePreservesWf | src/main/java/com/example/springbootapi/service/TransactionService.java:86-106 | creating a transaction keeps the store invariant, so balance equals the net effect of completed movements and is never negative |
| Engine.ReattemptPreservesWf | src/main/java/com/example/springbootapi/service/TransactionService.java:123-149 | resetting a non-completed record to PENDING and settling it again keeps the store invariant |
| Engine.RetryPreservesWf | src/main/java/com/example/springbootapi/service/TransactionService.java:138-149 | the intended retry keeps the store invariant |
| Engine.RetryAsWrittenPreservesWf | src/main/java/com/example/springbootapi/service/TransactionService.java:111-150 | the retry as written, with its wider access check, keeps the store invariant too |
| Repository.Contribution | src/main/java/com/example/springbootapi/repository/TransactionRepository.java:59-61 | PENDING and FAILED movements and movements not touching the account contribute nothing |
| Repository.FindStatementTransactions | src/main/java/com/example/springbootapi/repository/TransactionRepository.java:42-52 | exactly the COMPLETED movements touching the account created in `[from, toExclusive)` |
| Repository.FindByStatus | src/main/java/com/example/springbootapi/repository/TransactionRepository.java:24 | exactly the movements with that status |
| Repository.FindByStatusAndOwner | src/main/java/com/example/springbootapi/repository/TransactionRepository.java:26-37 | exactly the movements with that status whose non-null source or target belongs to the user (the query as intended) |
| Repository.FindByStatusAndOwnerAsWritten | src/main/java/com/example/springbootapi/repository/TransactionRepository.java:26-37 | the query as written: the implicit joins through both sides admit only movements with both sides, so exactly the transfers with that status of which the user owns a side |
| Repository.OwnerQueryAsWrittenKeepsOnlyTransfers | src/main/java/com/example/springbootapi/repository/TransactionRepository.java:26-37 | the query as written lists exactly the two-sided movements the intended query lists |
| EngineScenarios.OwnDepositHiddenAsWritten | src/main/java/com/example/springbootapi/repository/TransactionRepository.java:26-37 | the owner of the account credited by a completed deposit sees it by status through the intended query, while the query as written returns nothing |
| Repository.FindByFromAccountId | src/main/java/com/example/springbootapi/repository/TransactionRepository.java:20 | exactly the movements debiting the account |
| Repository.FindByToAccountId | src/main/java/com/example/springbootapi/repository/TransactionRepository.java:21 | exactly the movements crediting the account |
| Repository.FindById | src/main/java/com/example/springbootapi/repository/TransactionRepository.java:39-40 | present exactly when some stored movement carries the key `id`, and then a stored movement with that key |
| Repository.FindByIdAtPosition | src/main/java/com/example/springbootapi/repository/TransactionRepository.java:39-40 | when keys are positions, the lookup by key returns the movement at position `id`, and nothing for an id outside the stored range |
| Repository.NetEffectAppend | src/main/java/com/example/springbootapi/repository/TransactionRepository.java:54-65 | the net effect of a history with one more movement is the old one plus that movement's signed contribution |
| Repository.NetEffectUpdate | src/main/java/com/example/springbootapi/repository/TransactionRepository.java:54-65 | replacing one movement changes the net effect by the difference of the two contributions |
| Repository.UncompletedInvisible | src/main/java/com/example/springbootapi/repository/TransactionRepository.java:44-72 | rewriting a non-completed movement as another non-completed one leaves every net effect unchanged |
| Repository.NetEffectSplit | src/main/java/com/example/springbootapi/repository/TransactionRepository.java:54-79 | the net effect over a window split into two disjoint windows is the sum of the two |
| Repository.SumNetEffectAdditive | src/main/java/com/example/springbootapi/repository/TransactionRepository.java:54-79 | for `t <= u`, the sum from `t` equals the sum in `[t, u)` plus the sum from `u` |
| Repository.HistorySplit | src/main/java/com/example/springbootapi/repository/TransactionRepository.java:54-65 | the whole net effect is the part before `t` plus the part from `t` |
| Repository.BeforeSplit | src/main/java/com/example/springbootapi/repository/TransactionRepository.java:67-79 | the net effect before `u` is the part before `t` plus the part in `[t, u)` |
| Repository.NetEffectUntouched | src/main/java/com/example/springbootapi/repository/TransactionRepository.java:54-57 | with no movement touching the account, every sum is 0 (the COALESCE case) |
| Accounts.Candidate | src/main/java/com/example/springbootapi/service/AccountService.java:56-62 | a candidate number is `0x` followed by one alphabet character per draw, 42 characters in all |
| Accounts.CandidateRoundTrip | src/main/java/com/example/springbootapi/service/AccountService.java:36-62 | draws and well-formed numbers are in one-to-one correspondence: reading the draw back from a candidate gives the draw, and rebuilding a number from its draw gives the number |
| Accounts.CandidateInjective | src/main/java/com/example/springbootapi/service/AccountService.java:56-62 | different draws give different numbers |
| Accounts.CharactersSpelledOut | src/main/java/com/example/springbootapi/service/AccountService.java:36 | the alphabet has 62 characters: digits, then lower-case, then upper-case letters |
| Accounts.FirstFree | src/main/java/com/example/springbootapi/service/AccountService.java:64-71 | the retry loop stops at the first draw whose number is not in use, having skipped only numbers in use |
| Accounts.GenerateAccountNumber | src/main/java/com/example/springbootapi/service/AccountService.java:56-74 | the result is a well-formed number not in use, built from the first draw whose number is not in use; it fails exactly when every draw collides |
| Accounts.CreateAccount | src/main/java/com/example/springbootapi/service/AccountService.java:76-94 | not found (nothing saved) for a missing user; succeeds exactly for a known user when some draw gives an unused number, storing a new account under the next id, owned by the user, balance 0, numbered by the first such draw, which no stored account has |
| Accounts.GetAccountById | src/main/java/com/example/springbootapi/service/AccountService.java:96-102 | not found exactly for an unknown id, then access denied exactly for a non-admin non-owner; returned exactly for an existing account the caller administers or owns, and then that account |
| Accounts.GetAccountBalance | src/main/java/com/example/springbootapi/service/AccountService.java:104-110 | same guard, succeeding exactly for an existing account the caller administers or owns; the result is that account's stored balance, which under the invariant equals the net effect of all completed movements and is non-negative |
| Accounts.FindByAccountNumber | src/main/java/com/example/springbootapi/service/AccountService.java:113 | finds an account carrying that number, and nothing exactly when no account carries it |
| Accounts.GetAccountByAccountNumber | src/main/java/com/example/springbootapi/service/AccountService.java:112-118 | not found exactly for an unused number, access denied exactly when the number is used and the account is refused; a returned account carries the number and is the caller's or the caller is admin; with unique numbers, returned exactly when some account carrying the number is the caller's or the caller is admin |
| Accounts.DeleteAccount | src/main/java/com/example/springbootapi/service/AccountService.java:150-163 | the account guard first; a movement still referring to the account blocks the delete; otherwise exactly that account is removed |
| Accounts.AccountsOf | src/main/java/com/example/springbootapi/service/AccountService.java:134 | exactly the user's accounts, unchanged |
| Accounts.GetAccountsByUserId | src/main/java/com/example/springbootapi/service/AccountService.java:120-138 | not found for a missing user or an unregistered caller; access denied for a registered caller who is another user; succeeds exactly for an admin or the user themself, with exactly that user's accounts as stored |
| Accounts.GetAllAccounts | src/main/java/com/example/springbootapi/service/AccountService.java:140-148 | admin only; every account |
| Accounts.GetAccountStatement | src/main/java/com/example/springbootapi/service/AccountService.java:165-198 | invalid request when `from` is after `to` (before any lookup), then the account guard; succeeds exactly when `from <= to` and the account exists and is the caller's or the caller is admin; lists exactly the completed movements in `[from day start, to+1 day start)`; when balances agree with the history, opening is the net effect before `from` and closing the net effect before `to + 1` |
| Accounts.StatementReconstructsHistory | src/main/java/com/example/springbootapi/service/AccountService.java:183-187 | balance minus the sum from `t`, plus the sum in `[t, u)`, is the history before `u` |
| Accounts.CreateAccountPreservesWf | src/main/java/com/example/springbootapi/service/AccountService.java:76-94 | creating an account keeps the store invariant |
| Accounts.DeleteAccountPreservesWf | src/main/java/com/example/springbootapi/service/AccountService.java:150-163 | deleting an account keeps the store invariant |
| Users.CreateUser | src/main/java/com/example/springbootapi/service/UserService.java:44-52 | already exists exactly when the username is taken, saving nothing; otherwise one new user under the next id with the encoded password and role USER |
| Users.GetUserById | src/main/java/com/example/springbootapi/service/UserService.java:37-42 | not found exactly for an unknown id; otherwise that user |
| Users.UpdateUser | src/main/java/com/example/springbootapi/service/UserService.java:54-63 | not found for an unknown id; otherwise overwrites username, encoded password and email of that user only, keeping the role; another user's username is refused by the unique column |
| Users.OwnedAccounts | src/main/java/com/example/springbootapi/entity/User.java:44-46 | exactly the accounts whose owner is the user |
| Users.DeleteUser | src/main/java/com/example/springbootapi/service/UserService.java:65-68 | an unknown id changes nothing; otherwise exactly that user and its accounts go, unless a movement still refers to one of them |
| Users.CreateUserPreservesWf | src/main/java/com/example/springbootapi/service/UserService.java:44-52 | registration keeps usernames unique and the store invariant |
| Users.UpdateUserPreservesWf | src/main/java/com/example/springbootapi/service/UserService.java:54-63 | an update keeps usernames unique and the store invariant |
| Users.DeleteUserPreservesWf | src/main/java/com/example/springbootapi/service/UserService.java:65-68 | a delete keeps the store invariant |
| Users.RegisterTwice | src/main/java/com/example/springbootapi/service/UserService.java:44-48 | a freshly registered user is not an admin, and registering the same username again is refused |
| RateLimit.ResolveRoute | src/main/java/com/example/springbootapi/filter/RateLimitingFilter.java:107-120 | POST (any case) to the login path, the register path or under the transactions prefix selects that limit; everything else, including every non-POST, the default |
| RateLimit.ReadsUseDefaultLimit | src/main/java/com/example/springbootapi/filter/RateLimitingFilter.java:108-119 | a GET under the transactions prefix uses the default limit; a lower-case `post` uses the transactions limit |
| RateLimit.ExtractClientIpAsWritten | src/main/java/com/example/springbootapi/filter/RateLimitingFilter.java:122-132 | fails exactly on a non-blank `X-Forwarded-For` that `split` turns into no element; without a usable forwarded header it is the trimmed `X-Real-IP` if usable, else the peer address |
| RateLimit.ExtractClientIp | src/main/java/com/example/springbootapi/filter/RateLimitingFilter.java:122-132 | with a usable forwarded header, the trimmed text before its first comma, with no comma and no surrounding blanks; else the trimmed `X-Real-IP`, else the peer address |
| RateLimit.ExtractClientIpDiscrepancy | src/main/java/com/example/springbootapi/filter/RateLimitingFilter.java:124-125 | the code as written fails exactly for a header made only of commas and otherwise agrees with the intended extraction |
| RateLimit.CommaOnlyHeaderFails | src/main/java/com/example/springbootapi/filter/RateLimitingFilter.java:124-125 | the header `,` makes the code as written fail |
| RateLimit.KeyInjective | src/main/java/com/example/springbootapi/filter/RateLimitingFilter.java:75 | distinct (method, path, address) triples get distinct counter keys, for methods and paths without `:` |
| RateLimit.Increment | src/main/java/com/example/springbootapi/filter/RateLimitingFilter.java:77-80 | adds one to that key's count only; the expiry is set to the window exactly when the count becomes 1 |
| RateLimit.Admission | src/main/java/com/example/springbootapi/filter/RateLimitingFilter.java:75-89 | the key's count rises by one and no other count changes; rejected exactly when the new count exceeds the maximum; remaining is `max(0, max - count)`; retry-after is the reported lifetime when positive, else the window |
| RateLimit.Decide | src/main/java/com/example/springbootapi/filter/RateLimitingFilter.java:59-105 | outside `/api/` the request passes and no counter changes; otherwise it is counted under its own key (with the intended address extraction) against its route's limit, with the outcome stated for `Admission` |
| RateLimit.DecideAsWritten | src/main/java/com/example/springbootapi/filter/RateLimitingFilter.java:59-71 | the filter as written: fails with an internal error, counting nothing, exactly for an `/api/` request whose usable `X-Forwarded-For` is made only of commas; otherwise decides as `Decide` |
| RateLimit.CommaOnlyHeaderAbortsRequest | src/main/java/com/example/springbootapi/filter/RateLimitingFilter.java:65-71 | an `/api/` request with `X-Forwarded-For: ,` fails as written, while the intended filter counts it under the key with an empty address |
| RateLimit.RepeatCounts | src/main/java/com/example/springbootapi/filter/RateLimitingFilter.java:77 | `n` requests with one key raise that key's count by `n` and leave the others alone |
| RateLimit.NthRequestAdmittedIffWithinLimit | src/main/java/com/example/springbootapi/filter/RateLimitingFilter.java:87 | in a fresh window the `n`-th request is admitted exactly when `n` is at most the maximum |
| RateLimit.ExpiryResetsWindow | src/main/java/com/example/springbootapi/filter/RateLimitingFilter.java:77-80 | after the key expires the next request starts a new window with count 1 and is admitted |
| RateLimit.SixthLoginRefused | src/main/java/com/example/springbootapi/filter/RateLimitingFilter.java:29-33 | with the default 5 logins a minute, the sixth is refused with remaining 0 and retry-after 60 when no lifetime is reported |
| Paging.CreatePageable | src/main/java/com/example/springbootapi/controller/TransactionController.java:69-77 | page and size pass through; the field is the text before the first comma; a sort of commas only fails inside `split`; a blank field, a negative page or a size below 1 are refused |
| Paging.DirectionIsAscIff | src/main/java/com/example/springbootapi/controller/TransactionController.java:72-75 | the direction is ascending exactly when the second comma-separated token exists and is `asc` ignoring case |
| Paging.FieldAndDirection | src/main/java/com/example/springbootapi/controller/TransactionController.java:70-76 | a sort `field,dir` yields that field, ascending exactly when `dir` is `asc` ignoring case |
| Paging.DefaultsSortByIdDescending | src/main/java/com/example/springbootapi/controller/TransactionController.java:33-35 | the defaults (page 0, size 10, `id,desc`) request ten rows by descending id |
| Paging.UpperCaseAscSortsAscending | src/main/java/com/example/springbootapi/controller/TransactionController.java:73-74 | `amount,ASC` sorts ascending by amount |
| Paging.UnknownDirectionSortsDescending | src/main/java/com/example/springbootapi/controller/TransactionController.java:72-73 | an unrecognised direction word sorts descending |
| Paging.RefusedExamples | src/main/java/com/example/springbootapi/controller/TransactionController.java:70-76 | the sort `,` fails and page -1 is refused |
| EngineScenarios.RecipientRetriesTransfer | src/test/java/com/example/springbootapi/integration/TransactionStatusIntegrationTest.java:300-324 | after a FAILED transfer from Alice's account to Bob's, Bob may retry it as written, while the intended retry denies him access |
| EngineScenarios.RetryAfterFunding | src/test/java/com/example/springbootapi/integration/TransactionStatusIntegrationTest.java:161-204 | an unaffordable transfer is recorded FAILED and moves nothing; after a deposit, retrying it completes and credits the full amount |
| EngineScenarios.WithdrawToZeroThenFail | src/main/java/com/example/springbootapi/service/TransactionService.java:217-223 | withdrawing the whole balance completes and leaves 0; a further withdrawal is recorded FAILED |
| EngineScenarios.OwnershipOfDebitedSide | src/main/java/com/example/springbootapi/service/TransactionService.java:61-73 | a non-owner may neither debit another's account nor deposit into it, while the owner may transfer to someone else's account |
| StatementScenarios.JanuaryStatement | src/test/java/com/example/springbootapi/integration/AccountStatementIntegrationTest.java:121-131 | balance 750 with +500 before, +200 and -50 within, +100 after 15-31 January 2026 gives opening 500, closing 650 and the two inner movements |
| StatementScenarios.EmptyStatement | src/test/java/com/example/springbootapi/integration/AccountStatementIntegrationTest.java:172-183 | a window before all movements has opening equal to closing and no movements |
| StatementScenarios.StatementErrors | src/main/java/com/example/springbootapi/service/AccountService.java:166-174 | reversed dates fail as invalid even for an unknown account; a stranger is denied; an unknown account is not found |

## Left out

- Concurrency and the real optimistic lock. Threads, the version column and JPA flush timing are not modelled. A lock failure is the `conflict` flag, which leaves balances alone and records FAILED.
- The older rollback behaviour, where a failed transfer raises and saves nothing, is not modelled. The model follows the current code, which commits a FAILED record.
- HTTP status mapping is not modelled; results are error kinds. The exception handler sends `IllegalStateException` (retrying a COMPLETED record) to 500, while an integration test expects 409. The model only says `InvalidState`.
- The sort of `,` throws `ArrayIndexOutOfBoundsException` inside `createPageable`, which the model reports as `InternalError`.
- JWT, authentication, password hashing, caching annotations and the MapStruct mappers and DTOs are not modelled. The encoder is a function parameter.
- `getAllUsers` and the controllers other than `createPageable` only route or map data and are not modelled.
- Pagination order and page slicing are not modelled: queries return the full filtered sequence, as a set of movements. BigDecimal scale is not modelled: amounts are exact cents.
- Accounts.GenerateAccountNumber: the source retries `SecureRandom` without bound. The model is given a finite list of draws and reports `NoFreshNumber` if every one collides.
- RateLimit.Decide: uses the intended address extraction, so it never fails; the filter as written, which fails on a forwarded header of commas only, is `RateLimit.DecideAsWritten`. Redis time is not modelled. Expiry happens through `RateLimit.Expire`, and the lifetime the store reports is the `ttl` parameter. The `count == null` branch, which happens only with pipelined or transactional Redis use, is left out.
- RateLimit.Admission: the 429 response body (time stamp, JSON) is not modelled.
- Paging.CreatePageable: `equalsIgnoreCase` is modelled for the constant ASCII word `asc`, including the non-ASCII characters Java folds onto ASCII letters. Other Unicode case pairs are not relevant to that word.
- Accounts.GetAccountsByUserId: requires usernames to be unique, which the unique column guarantees. The lookup of the caller by username is then well defined.
- Engine.RetryTransaction: requires every stored movement to be well shaped and keyed by its position, as every movement the engine creates is (`Engine.WfShaped`).
- Engine.RetryTransaction: uses the intended access check; the code's check, which lets the owner of either side retry, is `Engine.RetryTransactionAsWritten` (see Findings). The integration test `src/test/java/com/example/springbootapi/integration/TransactionStatusIntegrationTest.java` (lines 300-324) expects the recipient of a failed transfer to be refused, which matches the intended check and not the code.
- Engine.GetTransactionsByStatus: a non-admin caller gets the owner query as intended, which includes deposits and withdrawals on an owned account. The query as written returns only transfers (`Repository.FindByStatusAndOwnerAsWritten`); see Findings.
- The integration test `src/test/java/com/example/springbootapi/integration/TransactionStatusIntegrationTest.java` (lines 284-288) expects the owner of the credited account of a failed transfer (made at lines 273-279) to see no FAILED movement. Both readings of the owner query list that transfer for them, and so does the model; that expectation is not reproduced.
- Engine.CreateTransaction: requires an amount of at least one cent. The request validation rejects smaller amounts before the service runs.
- Foreign keys and the user-to-accounts cascade are modelled as store rules. Deleting an account or user still referenced by a movement is refused with `ConstraintViolation`. The source leaves this to the database.
- `Account.java` and `Transaction.java` show no balance, status or version fields, although the service reads and writes them. The model takes those fields from the service's use.

## Findings

| source | as written | input that shows it | evidently intended | confidence | as-written member | corrected member |
|---|---|---|---|---|---|---|
| src/main/java/com/example/springbootapi/filter/RateLimitingFilter.java:124-125 | takes element 0 of `X-Forwarded-For` split at commas; `split` drops trailing empty strings, so a header of commas only gives an empty array and indexing it throws, making the filter fail the request with a 500 before rate limiting | header `X-Forwarded-For: ,` | use the (empty) text before the first comma, or fall back to the next source | not executed | RateLimit.ExtractClientIpAsWritten, RateLimit.CommaOnlyHeaderFails, RateLimit.DecideAsWritten, RateLimit.CommaOnlyHeaderAbortsRequest | RateLimit.ExtractClientIp, RateLimit.Decide |
| src/main/java/com/example/springbootapi/repository/TransactionRepository.java:26-37 | filters on `t.fromAccount.user.username` and `t.toAccount.user.username`; path navigation in JPQL joins with inner-join semantics, so a movement with a null side is dropped before the `IS NOT NULL` guards are evaluated, and a non-admin listing by status sees only transfers | a user owning the account credited by a COMPLETED deposit lists COMPLETED movements and does not see the deposit | match a movement whose non-null debited or credited side belongs to the user, as the guards say (explicit left joins) | not executed | Repository.FindByStatusAndOwnerAsWritten, Repository.OwnerQueryAsWrittenKeepsOnlyTransfers, EngineScenarios.OwnDepositHiddenAsWritten | Repository.FindByStatusAndOwner |
| src/main/java/com/example/springbootapi/service/TransactionService.java:115-121 | a non-admin may retry when they own either side, so the owner of the credited account of a transfer may re-run the debit of an account they do not own | Alice's unaffordable transfer from her account to Bob's, recorded FAILED, retried by Bob (the test at src/test/java/com/example/springbootapi/integration/TransactionStatusIntegrationTest.java:300-324 expects 403) | admit only an admin or the owner of the side that may create the movement: the debited account, or the credited account of a deposit, as the create checks at lines 61-63, 71-73 and 80-82 | not executed | Engine.RetryTransactionAsWritten, Engine.RetryAsWrittenAdmitsMore, EngineScenarios.RecipientRetriesTransfer | Engine.RetryTransaction |
