# MiniWallet ledger, modelled in Dafny

MiniWallet is a Spring Boot service. It keeps customers, one wallet per
customer, and an append-only log of wallet transactions. This project models
three parts of it and proves their properties:

- **the wallet ledger engine** (`WalletService`): amount normalisation,
  wallet creation, deposit, withdrawal and the two-sided transfer;
- **the customer store** (`CustomerService`), whose invariant is that no two
  customers share an email;
- **the transaction-log queries** (`TransactionRepository`), as pure
  selection and ordering functions over the log.

Modules and files:

| file | module | contents |
|---|---|---|
| `errors.dfy` | `Errors` | `Option` (Java's `null`) and `Result`, and one `Error` constructor per exception class the services throw |
| `entities.dfy` | `Entities` | `Wallet`, `Transaction`, `Customer`, the two enums, and Java's `String.isBlank` |
| `money.dfy` | `Money` | `BigDecimal` as `Decimal(unscaled, scale)`, `setScale(4, HALF_UP)` as `ToUnits`, and `NormalizeAmount` |
| `transaction_repository.dfy` | `TransactionRepository` | the derived queries: one `Where` selection plus a stable newest-first sort |
| `customer_service.dfy` | `CustomerService` | class `CustomerStore`, a customer map plus an identity counter |
| `wallet_service.dfy` | `WalletService` | class `Ledger`, holding the wallet map, the transaction log, the wallet identity counter and a ghost record of lock requests; the ledger invariant and its preservation lemmas; `Transfer` as a function of the state before the call |

Money is an `int` counting units of 0.0001. Every amount column is
`DECIMAL(19,4)` and `BigDecimal` is exact, so nothing is lost.

Each service method either commits its whole effect or returns an `Err` and
leaves the wallets and the log unchanged. That is the outcome of the
`@Transactional` rollback. An error is a value of the `Error` datatype,
carrying the exception's class and its subject (a wallet id, a customer id,
a transfer id or an email).

The ledger invariant `WalletService.Inv` holds before and after every
operation. It says:

- all wallet ids are below the identity counter;
- no two wallets share an owner;
- every balance is at least 0;
- every logged record is a SUCCESS record with a positive amount, posted
  against a known wallet;
- every balance equals the credits minus the debits that the log records for
  that wallet;
- every transfer id in the log selects exactly one DEBIT/CREDIT pair;
- transaction ids are distinct.

`Transfer` is specified by the function `TransferSpec`. Its locking half
goes through `SettleTransfer`, which the method `Ledger.Settle` implements.
The lemmas about transfers (how the amount moves, what is conserved,
that the invariant is kept, that a retry is rejected) are stated about those
functions.


## Model

All source paths are under `src/main/java/com/example/miniwallet/`, written out in full below.

| member | source | states |
|---|---|---|
| Money.ToUnits | src/main/java/com/example/miniwallet/service/WalletService.java:36 | `setScale(4, HALF_UP)`: an amount with at most four fractional digits is scaled exactly. A finer one lands on the unit that half-up rounding assigns, with ties going away from zero. The sign is kept: a positive result comes from a positive amount. |
| Money.NormalizeAmount | src/main/java/com/example/miniwallet/service/WalletService.java:34-41 | null is rejected as "amount is required". A rounded amount ≤ 0 is rejected as "amount must be > 0". The result is Ok exactly when the rounded amount is > 0, and then it is that rounded amount. |
| Money.RoundingIsUnique | src/main/java/com/example/miniwallet/service/WalletService.java:36 | the half-up rule fixes the result: two values that both satisfy it are equal, so `ToUnits` is the rounding and not merely one candidate for it |
| Money.NormalizeKeepsExactAmounts | src/main/java/com/example/miniwallet/service/WalletService.java:34-41 | a positive amount with at most four fractional digits normalises to the same value, unchanged |
| Money.NormalizeExamples | src/main/java/com/example/miniwallet/service/WalletService.java:34-41 | 10.00005 becomes 10.0001; 0.00001 rounds to 0 and is rejected; −10.00005 is rejected |
| TransactionRepository.Where | src/main/java/com/example/miniwallet/repository/TransactionRepository.java:17-47 | a derived query's WHERE clause: every selected entry matches the criterion, and the selection is no longer than the log |
| TransactionRepository.WhereCounts | src/main/java/com/example/miniwallet/repository/TransactionRepository.java:17-47 | each matching entry is selected exactly as often as it is logged, and nothing else is selected |
| TransactionRepository.WhereConcat | src/main/java/com/example/miniwallet/repository/TransactionRepository.java:21 | selecting from an appended log is selecting from the old log followed by selecting from the new records |
| TransactionRepository.OrderByCreatedAtDesc | src/main/java/com/example/miniwallet/repository/TransactionRepository.java:17-45 | ORDER BY createdAt DESC: the result is in non-increasing createdAt order and is a permutation of its input |
| TransactionRepository.FindByTransferId | src/main/java/com/example/miniwallet/repository/TransactionRepository.java:21 | exactly the log entries whose transfer id equals the argument |
| TransactionRepository.FindByTransferIdCounts | src/main/java/com/example/miniwallet/repository/TransactionRepository.java:21 | each such entry appears as often as it is logged |
| TransactionRepository.FindByTransferIdNonEmpty | src/main/java/com/example/miniwallet/repository/TransactionRepository.java:21 | the lookup is non-empty exactly when some logged entry carries the transfer id, which is what `isEmpty` tests at WalletService.java:147 |
| TransactionRepository.FindByReference | src/main/java/com/example/miniwallet/repository/TransactionRepository.java:47 | exactly the log entries whose reference equals the argument, each as often as logged |
| TransactionRepository.FindByWalletIdOrderByCreatedAtDesc | src/main/java/com/example/miniwallet/repository/TransactionRepository.java:17-19 | every entry of the wallet, as often as logged, and nothing else, newest first |
| TransactionRepository.FindByWalletIdAndStatusOrderByCreatedAtDesc | src/main/java/com/example/miniwallet/repository/TransactionRepository.java:23-27 | the entries with both that wallet and that status, as often as logged, newest first |
| TransactionRepository.FindByWalletIdAndDateRange | src/main/java/com/example/miniwallet/repository/TransactionRepository.java:29-37 | the wallet's entries with startDate ≤ createdAt ≤ endDate (both ends inclusive), as often as logged, newest first; empty when startDate > endDate |
| TransactionRepository.FindByWalletIdAndType | src/main/java/com/example/miniwallet/repository/TransactionRepository.java:39-45 | the wallet's entries of that type, as often as logged, newest first |
| TransactionRepository.TypesPartitionWalletHistory | src/main/java/com/example/miniwallet/repository/TransactionRepository.java:17-19 | a wallet's CREDIT view and DEBIT view together are, as a multiset, exactly its full history |
| Entities.IsBlank | src/main/java/com/example/miniwallet/service/CustomerService.java:24 | `String.isBlank`: the empty string is blank, and a non-empty one is blank exactly when its first character is whitespace and the rest is blank |
| Entities.NullOrBlank | src/main/java/com/example/miniwallet/service/WalletService.java:142 | null counts as blank, and a string that is not blank holds a non-whitespace character |
| CustomerService.EmailTaken | src/main/java/com/example/miniwallet/service/CustomerService.java:27 | `existsByEmail`: the email is one of the stored customers' emails (also line 52) |
| CustomerService.CustomerStore.constructor | src/main/java/com/example/miniwallet/service/CustomerService.java:21 | the store starts empty and valid |
| CustomerService.CustomerStore.CreateCustomer | src/main/java/com/example/miniwallet/service/CustomerService.java:23-33 | a null or blank email fails "email is required". An email already held fails Duplicate. Otherwise, and only then, the customer is stored under a store-assigned fresh id; the incoming id is ignored and nothing else changes. Errors change nothing, and emails stay unique. |
| CustomerService.CustomerStore.GetById | src/main/java/com/example/miniwallet/service/CustomerService.java:35-39 | the stored customer, or NotFound for an unknown id |
| CustomerService.CustomerStore.FindByEmail | src/main/java/com/example/miniwallet/service/CustomerService.java:41-44 | some customer exactly when one holds the email; it is stored under its own id and is the only one holding that email |
| CustomerService.CustomerStore.UpdateCustomer | src/main/java/com/example/miniwallet/service/CustomerService.java:46-58 | an unknown id fails NotFound. A null name keeps the name and a present one replaces it. A new email held by someone fails Duplicate and changes nothing. The customer's own current email is no conflict. On success only that customer changes, and emails stay unique. |
| CustomerService.UpdateKeepsEmailsUnique | src/main/java/com/example/miniwallet/service/CustomerService.java:51-57 | writing back the customer's own email, or an unused one, keeps emails unique |
| CustomerService.CustomerStore.DeleteCustomer | src/main/java/com/example/miniwallet/service/CustomerService.java:60-65 | an unknown id fails NotFound and changes nothing; otherwise exactly that customer is removed |
| WalletService.Adjust | src/main/java/com/example/miniwallet/service/WalletService.java:83-84 | `setBalance` plus `save` moves exactly the named wallet's balance by the delta; its owner, the set of wallets and every other wallet stay as they were (also lines 110-111 and 178-183) |
| WalletService.AdjustKeepsOwners | src/main/java/com/example/miniwallet/service/WalletService.java:110-111 | a balance update keeps the set of wallets, and keeps at most one wallet per owner |
| WalletService.TotalBalanceWithout | src/main/java/com/example/miniwallet/service/WalletService.java:83 | the sum of all balances is one wallet's balance plus the sum over the others |
| WalletService.TotalBalanceAdjust | src/main/java/com/example/miniwallet/service/WalletService.java:83 | moving one balance by a delta moves the sum of all balances by exactly that delta |
| WalletService.TransferConservesTotal | src/main/java/com/example/miniwallet/service/WalletService.java:177-183 | a transfer's two balance updates leave the sum of all balances unchanged |
| WalletService.AdjustCommutes | src/main/java/com/example/miniwallet/service/WalletService.java:83 | committed balance updates commute, and two updates of one wallet add up |
| WalletService.NetAppend | src/main/java/com/example/miniwallet/service/WalletService.java:94 | appending a record changes a wallet's logged net by that record's signed amount |
| WalletService.NetOfUntouchedWallet | src/main/java/com/example/miniwallet/service/WalletService.java:52 | a wallet nothing was ever posted against has a logged net of 0, matching its starting balance |
| WalletService.CreateWalletKeepsInv | src/main/java/com/example/miniwallet/service/WalletService.java:43-56 | adding a balance-0 wallet for a customer who has none keeps the ledger invariant, including at most one wallet per owner |
| WalletService.AppendKeepsEntriesWellFormed | src/main/java/com/example/miniwallet/service/WalletService.java:94 | appending well-formed records keeps every record well formed when the wallet set is unchanged |
| WalletService.AppendKeepsIdsDistinct | src/main/java/com/example/miniwallet/service/WalletService.java:94 | appending records with fresh ids keeps transaction ids distinct |
| WalletService.AppendUnpairedKeepsPaired | src/main/java/com/example/miniwallet/service/WalletService.java:94 | a record without a transfer id leaves every transfer's lookup unchanged |
| WalletService.PostKeepsInv | src/main/java/com/example/miniwallet/service/WalletService.java:76-121 | a deposit's CREDIT, or a covered withdrawal's DEBIT, together with its balance update keeps the ledger invariant |
| WalletService.AppendPairKeepsPaired | src/main/java/com/example/miniwallet/service/WalletService.java:206-207 | a new transfer's two records form a pair of their own, and every other transfer keeps its pair |
| WalletService.TransferKeepsNet | src/main/java/com/example/miniwallet/service/WalletService.java:177-207 | after the two balance updates and the two records, every balance still equals its logged net |
| WalletService.TransferKeepsInv | src/main/java/com/example/miniwallet/service/WalletService.java:177-207 | a covered transfer's updates and records keep the ledger invariant, and a lookup of its id then returns exactly [debit, credit] |
| WalletService.FindAfterTransfer | src/main/java/com/example/miniwallet/service/WalletService.java:206-209 | after a transfer under an unused id, `findByTransferId` returns exactly [debit, credit] |
| WalletService.LockOrder | src/main/java/com/example/miniwallet/service/WalletService.java:154-167 | the two wallets are locked smaller id first, whichever is the source |
| WalletService.LockOrderIgnoresDirection | src/main/java/com/example/miniwallet/service/WalletService.java:154-167 | transfers between the same two wallets in opposite directions request the locks in the same order |
| WalletService.TransferLockRequests | src/main/java/com/example/miniwallet/service/WalletService.java:157-167 | the lock requests issued: a prefix of the ascending order, stopping after the first one exactly when that wallet does not exist |
| WalletService.AlreadyProcessed | src/main/java/com/example/miniwallet/service/WalletService.java:142-149 | a transfer id counts as already processed exactly when it is present, not blank, and some logged entry carries it |
| WalletService.OwnsWallet | src/main/java/com/example/miniwallet/repository/WalletRepository.java:23-24 | `existsByCustomerId`: the count of the customer's wallets is > 0 |
| WalletService.OwnersCounted | src/main/java/com/example/miniwallet/repository/WalletRepository.java:23-24 | some wallet is owned by the customer exactly when that count is > 0 |
| WalletService.EffectiveTransferId | src/main/java/com/example/miniwallet/service/WalletService.java:141-150 | a null, empty or whitespace-only transfer id is replaced by the generated one; any other is used as given |
| WalletService.SettleTransfer | src/main/java/com/example/miniwallet/service/WalletService.java:154-209 | the locking half of a transfer succeeds exactly when both wallets exist and the source covers the amount. It then appends exactly two records: a DEBIT on the source pointing at the destination, then a CREDIT on the destination pointing at the source. Both are SUCCESS and carry the amount, the transfer id and the caller's reference. A missing wallet fails NotFound, the first one in lock order being reported first. A source that does not cover the amount fails InsufficientFunds on the source. Any failure changes nothing. |
| WalletService.TransferSpec | src/main/java/com/example/miniwallet/service/WalletService.java:136-209 | a transfer succeeds exactly when the wallets differ, a supplied non-blank id is not in the log, the amount normalises, both wallets exist and the source covers the amount. It then appends exactly a DEBIT on the source and a CREDIT on the destination, each pointing at the other wallet. Both are SUCCESS and carry the normalised amount, the effective transfer id and the caller's reference. The checks run in order: the same wallet on both sides fails BadRequest before anything else, then a processed id fails Duplicate, then a bad amount fails with the normalisation error, then the settlement's errors apply. On any error the wallets and the log are unchanged. |
| WalletService.SettleMovesAmount | src/main/java/com/example/miniwallet/service/WalletService.java:177-183 | a settlement subtracts the amount from the source balance and adds it to the destination. Every other wallet is unchanged, and so is the sum of all balances. |
| WalletService.TransferMovesAmount | src/main/java/com/example/miniwallet/service/WalletService.java:152-183 | a successful transfer moves the normalised, positive amount from the source to the destination. Every other wallet is unchanged, and so is the sum of all balances. |
| WalletService.SettleKeepsInv | src/main/java/com/example/miniwallet/service/WalletService.java:154-209 | every settlement outcome keeps the ledger invariant; after success the transfer id selects exactly the two new records |
| WalletService.TransferSpecKeepsInv | src/main/java/com/example/miniwallet/service/WalletService.java:136-209 | every transfer outcome keeps the ledger invariant (balances ≥ 0, balances equal to the logged net, pairs intact); after success `findByTransferId` of the effective id returns exactly [debit, credit] |
| WalletService.TransferRetryIsRejected | src/main/java/com/example/miniwallet/service/WalletService.java:145-149 | repeating a successful transfer with the same supplied non-blank id fails as a duplicate and changes nothing. This holds for calls made one after another: see the concurrency line under "Left out" |
| WalletService.Ledger.constructor | src/main/java/com/example/miniwallet/service/WalletService.java:30-32 | an empty ledger over a given customer store satisfies the invariant |
| WalletService.Ledger.FindByIdWithLock | src/main/java/com/example/miniwallet/repository/WalletRepository.java:19-21 | returns the wallet if it exists and records one lock request for that id |
| WalletService.Ledger.CreateWalletForCustomer | src/main/java/com/example/miniwallet/service/WalletService.java:43-56 | an absent customer fails NotFound, and a customer who already has a wallet fails Duplicate; both change nothing. Otherwise, and only then, exactly one wallet is added, under a fresh id, with balance 0, owned by that customer. The invariant is kept. |
| WalletService.Ledger.GetById | src/main/java/com/example/miniwallet/service/WalletService.java:58-62 | the wallet, or NotFound for an unknown id |
| WalletService.Ledger.FindByCustomerId | src/main/java/com/example/miniwallet/service/WalletService.java:64-67 | a wallet exactly when the customer owns one; it is owned by that customer and is the only one they own |
| WalletService.Ledger.Deposit | src/main/java/com/example/miniwallet/service/WalletService.java:73-95 | a bad amount fails with no lock taken. An unknown wallet fails NotFound. Otherwise, and only then, the wallet's balance grows by exactly the normalised amount, no other wallet changes, and exactly one CREDIT/SUCCESS record with that amount and reference and no transfer id or related wallet is appended. Errors change nothing. |
| WalletService.Ledger.Withdraw | src/main/java/com/example/miniwallet/service/WalletService.java:97-122 | as deposit, but a balance below the amount fails InsufficientFunds and changes nothing. On success the balance drops by the amount and stays ≥ 0, and exactly one DEBIT/SUCCESS record is appended. |
| WalletService.Ledger.Transfer | src/main/java/com/example/miniwallet/service/WalletService.java:130-210 | the result, the wallets and the log afterwards are exactly `TransferSpec` of the state before. The locks are requested in ascending id order. None are taken when the request fails its early checks; otherwise they are exactly `TransferLockRequests`. The invariant is kept. |
| WalletService.Ledger.Settle | src/main/java/com/example/miniwallet/service/WalletService.java:154-209 | the result and the new state are exactly `SettleTransfer` of the state before; the lock requests are those of `TransferLockRequests`; the invariant is kept |

## Left out

- Caching (`@Cacheable`, `@CacheEvict`, `@CachePut`, `@Caching`) is not modelled. It does not affect the ledger state, and every read here goes to the store.
- Concurrency is not modelled. The pessimistic lock of `findByIdWithLock` is modelled only by the order of its requests, recorded in the ghost `locksRequested`. The `@Version` optimistic counter is not modelled at all.
- `WalletService.TransferRetryIsRejected` and the pairing part of `WalletService.Inv` hold for operations run one after another. The duplicate check (WalletService.java:147) runs before any lock is taken, and `idx_tx_transfer` (Transaction.java:17) is not a unique index. So two concurrent transfers with the same supplied id can both commit, and their id then selects four records.
- `@Transactional` is modelled only by its outcome: on any error the state is as it was before the call.
- Generated ids are parameters with a freshness precondition: the transaction ids, and the UUID a transfer generates. This covers `Ledger.Deposit`, `Ledger.Withdraw` and `Ledger.Transfer`. The code itself never checks a generated UUID against the log; the precondition says that the UUID is fresh.
- The timestamp `now` is a parameter with no constraint at all, not even that it grows from one call to the next.
- Identity columns are counters (`nextWalletId`, `nextId`).
- `createdAt` is an abstract, totally ordered `int`. The queries compare it and nothing else.
- `findAll` (WalletService.java:69-71), pagination (`Pageable`/`Page`) and the other repository methods are not part of this model.
- Entries with equal `createdAt` come out in log order (a stable sort). The database leaves that order unspecified; the model fixes one choice.
- `TransactionRepository.FindByTransferId` and `TransactionRepository.FindByReference` return their entries in log order. The queries have no ORDER BY, so the database promises no order at all.
- `WalletService.FindAfterTransfer`, `WalletService.AppendPairKeepsPaired`, `WalletService.TransferKeepsInv`, `WalletService.SettleKeepsInv` and `WalletService.TransferSpecKeepsInv` state that a lookup returns [debit, credit]. That order holds only under the model's log order. The code guarantees the two records, not the order the lookup returns them in. The same goes for the ordered pair in `TransfersPaired`.
- `WalletService.SettleTransfer` stamps the DEBIT and the CREDIT with one shared `now`. `@CreationTimestamp` gives each row its own timestamp, so the CREDIT's may be later.
- A null transfer id or reference passed to a derived query is modelled as selecting the rows where that column is NULL.
- `Customer.java`, `CustomerRepository` and the database foreign key from a wallet to its customer are not part of this model. `DeleteCustomer` therefore does not model the constraint violation raised when deleting a customer who owns a wallet.
- `CustomerService.CustomerStore.UpdateCustomer`: like the code, it accepts a present but blank email. The request DTO's `@NotBlank` rejects one at the HTTP layer, which is not modelled.
- Emails and transfer ids are compared by exact, case-sensitive string equality. That is the model's assumption: the code fixes no database collation, and MySQL's default collations compare case-insensitively. Under such a collation `existsByEmail` and `findByTransferId` also match other spellings. Example: a customer holding "a@x.com" who updates their email to "A@x.com" passes the `equals` test, is then found by `existsByEmail` as themselves, and fails Duplicate, while `CustomerStore.UpdateCustomer` succeeds. `CreateCustomer` and the transfer-id check differ in the same way.
- Column widths are not modelled: `transfer_id` is 36 characters and `reference` 255 (Transaction.java:51, 58). A longer supplied transfer id or reference fails at insert and the transfer, deposit or withdrawal rolls back, while the model commits it.
- Controllers, DTOs, bean validation, `GlobalExceptionHandler`, `TransactionService`, `SwaggerConfig` and `MiniwalletApplication` are not modelled. They are the HTTP surface and framework plumbing.
- Overflow of the `DECIMAL(19,4)` columns is not modelled. Balances and amounts are unbounded integers of 0.0001 units.
- The sum of all balances is a ghost function. Conservation is proved in lemmas about `TransferSpec` and `Adjust`, not in the methods' contracts.
- The locking half of `transfer` is modelled as the separate method `Ledger.Settle`. The Java code runs it inline.
