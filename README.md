# Wallet ledger: a verified model of the balance-mutation engine

This project models the core of a wallet ledger written in Ruby on Rails.
Every user owns exactly one wallet, which holds a balance. Every change to a
balance is recorded as a transaction. `TransactionService` is the only code
that changes balances. It offers three operations: deposit, withdrawal and
transfer. Each one runs as a single atomic database block. The block locks the
wallet rows, checks the balance under the lock when money leaves a wallet, and
creates a `pending` transaction record, which runs the record's validations.
Then it changes the balances and marks the record `completed`. Any error raised
inside the block rolls all of it back.

The model works in integer cents. The `decimal(15, 2)` columns become whole
cents below 10^15 in absolute value (`Schema.FitsDecimal`). It is organised as
follows:

- `Wallets` (app/models/wallet.rb): the wallet row, its validations, the
  one-wallet-per-user rule, and the sum of all balances.
- `Transactions` (app/models/transaction.rb): the record, the
  `transaction_type` encoding, and the record validations, including
  `validate_transfer_wallets`.
- `Users` (app/models/user.rb, lines 6-7): the user validations.
- `Store`: the three tables as a value (`Tables`), the invariant they keep
  between operations (`Consistent`), and a `Database` class that holds them.
  The class also keeps a ghost log of row locks.
- `TransactionService` (app/services/transaction_service.rb): each operation
  appears twice.
  - A function from the committed tables to an `Outcome`: the new tables and
    the record or typed error. Its contract states the operation's effect.
  - A method on `Database` that performs the source's steps in the source's
    order: lock, check, insert pending, update balances, mark completed,
    restore the saved state on error. Each method is proved to produce exactly
    the function's outcome, to keep `Database.Valid()`, and to log its locks in
    ascending id order.
- `UserLifecycle` (app/models/user.rb): saving a user together with its
  `after_create` wallet, and destroying a user together with its wallet.
- `LedgerProperties`: statements about sequences of operations. The
  concurrency tests become statements about operations run one after another,
  in lock order: N deposits, N withdrawals, opposing transfers, preserved
  invariants, and conservation of the total.

The model follows the code as written, including in three places a reader
might expect otherwise:

- Validation happens after locking, inside `Transaction.create!`, not before
  it.
- Withdrawals and transfers check the balance before validating the record. A
  transfer from a wallet to itself is therefore rejected by record validation
  only when the balance covers the amount. Otherwise it reports insufficient
  funds.
- Deposits and withdrawals leave `initiator` unset. The service tests at
  spec/services/transaction_service_spec.rb:33 and :88 expect it to be the
  wallet.

## Model

| member | source | states |
|---|---|---|
| `Wallets.Errors` | app/models/wallet.rb:4-7 | a wallet is reported for a missing user, a negative balance, a balance that does not fit `decimal(15, 2)`, or a user that already has a wallet, each exactly when that holds; no errors exactly when all four rules pass |
| `Wallets.UniqueOwnersIffNoneTaken` | app/models/wallet.rb:7 | the table has at most one wallet per user exactly when every wallet passes its own `user_id` uniqueness validation |
| `Transactions.TypeCode` | app/models/transaction.rb:8 | the stored `transaction_type` is 0, 1 or 2 |
| `Transactions.TypeFromCode` | app/models/transaction.rb:8 | a stored integer names a type exactly when it is 0, 1 or 2, and then names the type stored as that integer |
| `Transactions.TypeCodeRoundTrip` | app/models/transaction.rb:8 | storing a type and reading it back returns the same type |
| `Transactions.Message` | app/models/transaction.rb:17-19 | every error adds a non-empty message (for the two transfer errors, the sentences the validator adds) |
| `Transactions.MessageIdentifiesError` | app/models/transaction.rb:17-19 | two errors add the same message exactly when they are the same error |
| `Transactions.TransferErrors` | app/models/transaction.rb:15-21 | at most one error; "missing" exactly when initiator or receiver is blank, "must be different" exactly when both are present with equal ids, so the missing check takes precedence; no error exactly when both are present and distinct |
| `Transactions.Errors` | app/models/transaction.rb:4-11 | each error is reported exactly when its rule is broken: wallet missing, amount not above 0, amount outside `decimal(15, 2)`; the pair errors only for transfers |
| `Transactions.IsValid` | app/models/transaction.rb:10-11 | a record is valid exactly when its wallet exists, 0 < amount < 10^15 cents, and a transfer has two existing, distinct parties; deposits and withdrawals need no parties |
| `Users.Errors` | app/models/user.rb:6-7 | blank name, blank e-mail, an e-mail already taken, and a malformed e-mail are each reported exactly when they hold, where a blank e-mail (absent included) is always also malformed; no errors exactly when none holds |
| `Store.ConsistentRowsValid` | app/models/wallet.rb:4-7 | on tables that satisfy the store invariant `Store.Consistent` (one wallet per user, valid balances, unique present e-mails, committed records), every stored wallet passes all its validations, and every stored user has a present name and e-mail not used by another user |
| `Store.Database.Lock` | app/services/transaction_service.rb:10 | `lock!` appends the wallet to the log of locks taken |
| `TransactionService.Credit` | app/services/transaction_service.rb:19 | `increment!`/`decrement!` moves one wallet's balance by exactly the delta; no other wallet and no owner changes |
| `TransactionService.LockOrder` | app/services/transaction_service.rb:55-61 | a transfer's two locks are taken in ascending id order and are exactly the two wallets involved |
| `TransactionService.LockOrderIgnoresDirection` | app/services/transaction_service.rb:54-61 | transfers in opposite directions between the same wallets lock in the same order |
| `TransactionService.DepositOutcome` | app/services/transaction_service.rb:8-25 | success exactly when 0 < amount < 10^15 and the new balance fits; then the balance rises by exactly the amount, no other wallet changes, and one completed deposit record with no initiator or receiver is appended; any failure leaves the tables as they were; amount <= 0 is an invalid transaction |
| `TransactionService.WithdrawalOutcome` | app/services/transaction_service.rb:27-50 | balance < amount gives insufficient funds carrying the balance and the amount, with nothing changed; otherwise success exactly when the amount is valid; then the balance falls by exactly the amount and one completed withdrawal record is appended |
| `TransactionService.TransferOutcome` | app/services/transaction_service.rb:52-85 | insufficient funds is reported first, even for a transfer to oneself; success exactly when amount is valid and covered, the wallets differ, and the credit fits; then `from` is debited and `to` credited by the same amount (their sum preserved, other wallets untouched) and one completed record with wallet = initiator = from and receiver = to is appended; failure changes nothing |
| `TransactionService.DepositKeepsConsistency` | app/services/transaction_service.rb:8-22 | a deposit keeps the tables consistent (balances non-negative and in range, records completed and valid) |
| `TransactionService.WithdrawalKeepsConsistency` | app/services/transaction_service.rb:27-45 | a withdrawal keeps the tables consistent; in particular the balance never goes below 0 |
| `TransactionService.TransferKeepsConsistency` | app/services/transaction_service.rb:52-80 | a transfer keeps the tables consistent |
| `TransactionService.LockPair` | app/services/transaction_service.rb:55-61 | the transfer's locking step appends its two locks in ascending id order |
| `TransactionService.CreateDeposit` | app/services/transaction_service.rb:8-25 | performs lock, validation, pending insert, `increment!` and status update, with rollback on error; the result and new tables equal `DepositOutcome`; one lock is logged; the store stays valid |
| `TransactionService.CreateWithdrawal` | app/services/transaction_service.rb:27-50 | the same for `WithdrawalOutcome`, with the balance read under the lock before validation |
| `TransactionService.CreateTransfer` | app/services/transaction_service.rb:52-85 | the same for `TransferOutcome`; the lock log grows by `LockOrder(from, to)` |
| `UserLifecycle.RegisterOutcome` | app/models/user.rb:6-15 | an invalid user is rejected with its errors and nothing changes (a blank name or e-mail creates no wallet); a saved user gets the next id, and a wallet with balance 0 is inserted for it |
| `UserLifecycle.RegisterKeepsConsistency` | app/models/user.rb:9-15 | on consistent tables a user is saved exactly when its own validations pass, because the wallet validation cannot fail; the new user then has exactly one wallet, holding 0; consistency is kept |
| `UserLifecycle.DuplicateEmailRejected` | app/models/user.rb:7 | a second user with an e-mail already in use is rejected as taken, and nothing changes |
| `UserLifecycle.DestroyOutcome` | app/models/user.rb:4 | destroying a user removes exactly that user and its wallet, unless a record refers to the wallet, in which case nothing changes |
| `UserLifecycle.DestroyKeepsConsistency` | app/models/user.rb:4 | destroying keeps the tables consistent, and after a removal no wallet of that user remains |
| `UserLifecycle.CreateUser` | app/models/user.rb:6-15 | performs validation, insertion and the `after_create` wallet creation; the new tables equal `RegisterOutcome` with the next ids; both id sequences advance by one on success and stay put on failure; the store stays valid |
| `UserLifecycle.DestroyUser` | app/models/user.rb:4 | finds the user's wallet and deletes both unless the wallet is referenced; the result equals `DestroyOutcome`; the id sequences do not change; the store stays valid |
| `LedgerProperties.Apply` | app/services/transaction_service.rb:8-85 | no operation adds or removes wallets or users; a failed call changes nothing; a successful one appends exactly the completed record it returns |
| `LedgerProperties.Run` | spec/services/transaction_service_spec.rb:253-308 | running calls one after another keeps the wallets and users and only appends records |
| `LedgerProperties.RunKeepsConsistency` | app/models/wallet.rb:6 | any sequence of deposits, withdrawals and transfers keeps the tables consistent: no committed balance is negative and every record is completed |
| `LedgerProperties.ApplyChangesTotalByNetFlow` | app/services/transaction_service.rb:63-79 | the sum of all balances moves by the amount of a successful deposit or withdrawal, and not at all for a transfer or a failed call |
| `LedgerProperties.RepeatedDeposits` | spec/services/transaction_service_spec.rb:254-267 | n deposits of A give initial + n*A and exactly n completed deposit records |
| `LedgerProperties.RepeatedWithdrawals` | spec/services/transaction_service_spec.rb:269-282 | n withdrawals of A from a balance of at least n*A give initial - n*A and exactly n completed withdrawal records |
| `LedgerProperties.ThereAndBack` | spec/services/transaction_service_spec.rb:284-308 | a transfer followed by one in the opposite direction, each covered by its sender's balance, both complete and settle the difference |
| `LedgerProperties.OpposingTransfers` | spec/services/transaction_service_spec.rb:284-308 | opposing transfers lock in the same order, both complete in either order, and leave the same balances |
| `LedgerProperties.NonPositiveAmountRejected` | app/services/transaction_service.rb:23-24 | any operation with amount <= 0 on non-negative balances fails as an invalid transaction and changes nothing |

## Left out

- Threads, blocking on row locks, and deadlock freedom under interleaving. A lock is an entry in a ghost log. The concurrency tests are stated over operations applied in sequence (`LedgerProperties`).
- The atomic block's rollback mechanics. Each method saves the tables it may change and restores them on error.
- Record ids, `created_at`/`updated_at` timestamps, and id-sequence values a rolled-back insert consumes. A record's position in the list stands for its id.
- The HTTP layer: JWT authentication, parameter parsing (`to_d`), JSON rendering, logging, and mapping errors to status codes. So are the read endpoints for the balance and the transaction list. The controller's receiver lookup becomes the precondition that the wallets exist.
- Amounts with more than two decimals, a missing amount, and a missing wallet balance (app/models/wallet.rb:6 declares `presence: true` on it; the modelled operations always set it). Amounts are whole cents, so the rounding of the decimal cast is not modelled.
- The e-mail format pattern (`URI::MailTo::EMAIL_REGEXP`) is a library regular expression. Its outcome on a non-blank address is a parameter (`wellFormed`); a blank or absent address never matches it, since the pattern needs an `@`, and the model reports it as malformed regardless of the parameter.
- `Users.Blank` treats only ASCII whitespace as blank, where Ruby's `blank?` accepts any Unicode space.
- `TransactionProcessingError` is declared at app/services/transaction_service.rb:5 but never raised. The service wraps only `ActiveRecord::RecordInvalid` (app/services/transaction_service.rb:23, :46, :81); every other error passes through as raised. Of the errors that escape unwrapped, the model keeps one: a balance outside `decimal(15, 2)`, modelled as `StorageFailure`. A debit cannot reach it on consistent tables, and the methods prove this.
- The other errors that escape unwrapped are not modelled: `ActiveRecord::RecordNotFound` from `lock!` on a wallet row deleted meanwhile (app/services/transaction_service.rb:10, :29, :56-60), lock-wait timeouts and deadlocks, and an `amount` too large for its column if the framework does not enforce `precision:`/`scale:` as a validation. The model's wallets exist by precondition and its amounts are checked by `AmountOutOfRange`.
- app/models/transaction.rb declares no enum for `status`. As written, the integer attribute would cast `status: :pending` to nil, and since the column is `null: false` (db/migrate/20250712114244_add_status_to_transactions.rb:5-8), the insert at app/services/transaction_service.rb:12-17, :35-40 and :67-74 would then fail with a not-null violation on every call that passes validation. This consequence has not been confirmed against a running application. The model follows the evidently intended lifecycle instead: the service's use of `pending` and `completed` with the column's 0/1/2 encoding. `failed` is never produced.
- Error message text: the join of all messages into one string (app/services/transaction_service.rb:24) is not modelled. The errors are kept as a list of `ValidationError`. `Transactions.Message` gives the source's own words for the two transfer errors. For the others it gives a plausible wording, not one taken from the source.
- `numericality` with `precision: 15, scale: 2` is modelled as a validation error (`AmountOutOfRange`) as declared. Whether the framework enforces it that way, or only the database does, is not modelled.
- `LedgerProperties.OpposingTransfers`: proved for transfers each covered by its sender's balance before either runs, as in the test, rather than for every interleaving.
