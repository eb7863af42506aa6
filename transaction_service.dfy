/** `TransactionService` (app/services/transaction_service.rb): the only code
    that changes a balance. Each operation runs as one atomic block: it locks
    the wallet rows, checks the balance under the lock where it debits,
    creates a `pending` record (which runs the record's validations), changes
    the balances, and marks the record `completed`. Any error raised inside
    the block rolls all of it back.

    Each operation is given twice: as a function from the committed tables to
    the outcome (the specification, with its properties in its contract), and
    as a method on the store that performs the steps in the source's order and
    is proved to produce exactly that outcome. */
module TransactionService {
  import opened Wrappers
  import opened Schema
  import opened Wallets
  import opened Transactions
  import opened Store

  /** The errors an operation raises to its caller. */
  datatype ServiceError =
      /** InvalidTransactionError: the new record failed validation. */
    | InvalidTransaction(errors: seq<ValidationError>)
      /** InsufficientFundsError, with the available and the required amounts. */
    | InsufficientFunds(available: int, required: int)
      /** An error of the database that the service does not rescue: a balance
          that no longer fits its `decimal(15, 2)` column. */
    | StorageFailure

  /** The committed tables after an operation, and what it returned. */
  datatype Outcome = Outcome(state: Tables, result: Result<TransactionRecord, ServiceError>)

  /** `increment!` / `decrement!` of one balance by `delta` cents: that wallet's
      balance moves by exactly `delta`, and nothing else in the table changes. */
  function Credit(wallets: map<WalletId, Wallet>, w: WalletId, delta: int): (r: map<WalletId, Wallet>)
    requires w in wallets
    ensures r.Keys == wallets.Keys
    ensures r[w].user == wallets[w].user && r[w].balance == wallets[w].balance + delta
    ensures forall v :: v in wallets && v != w ==> r[v] == wallets[v]
  {
    wallets[w := wallets[w].(balance := wallets[w].balance + delta)]
  }

  /** The order in which a transfer takes its two row locks: ascending wallet
      id, whichever way the money moves. */
  function LockOrder(from: WalletId, to: WalletId): (locks: seq<WalletId>)
    ensures |locks| == 2 && locks[0] <= locks[1]
    ensures multiset(locks) == multiset{from, to}
  {
    if from < to then [from, to] else [to, from]
  }

  /** Two transfers between the same pair of wallets, in opposite directions,
      take their locks in the same order, so neither can hold the lock the
      other is waiting for. */
  lemma LockOrderIgnoresDirection(a: WalletId, b: WalletId)
    ensures LockOrder(a, b) == LockOrder(b, a)
  {
    var ab, ba := LockOrder(a, b), LockOrder(b, a);
    assert ab[0] in multiset(ba) && ab[1] in multiset(ba);
  }

  /** `create_deposit!`. */
  function DepositOutcome(s: Tables, w: WalletId, amount: int): (o: Outcome)
    requires w in s.wallets
    ensures o.result.Success? <==>
              0 < amount < CentsLimit && FitsDecimal(s.wallets[w].balance + amount)
    ensures o.result.Failure? ==> o.state == s
    ensures amount <= 0 ==>
              o.result.Failure? && o.result.error.InvalidTransaction?
              && AmountNotPositive in o.result.error.errors
    ensures o.result.Failure? ==>
              (o.result.error.InvalidTransaction? || o.result.error == StorageFailure)
    ensures o.result.Success? ==>
              && o.result.value == TransactionRecord(w, None, None, amount, Deposit, Completed)
              && o.state.users == s.users
              && o.state.wallets == Credit(s.wallets, w, amount)
              && o.state.transactions == s.transactions + [o.result.value]
  {
    var pending := TransactionRecord(w, None, None, amount, Deposit, Pending);
    var errs := Transactions.Errors(pending, s.wallets.Keys);
    if errs != [] then
      Outcome(s, Failure(InvalidTransaction(errs)))
    else if !FitsDecimal(s.wallets[w].balance + amount) then
      Outcome(s, Failure(StorageFailure))
    else
      var done := pending.(status := Completed);
      Outcome(Tables(s.users, Credit(s.wallets, w, amount), s.transactions + [done]), Success(done))
  }

  /** `create_withdrawal!`. The balance is checked before the record is
      validated. */
  function WithdrawalOutcome(s: Tables, w: WalletId, amount: int): (o: Outcome)
    requires w in s.wallets
    ensures s.wallets[w].balance < amount ==>
              o == Outcome(s, Failure(InsufficientFunds(s.wallets[w].balance, amount)))
    ensures o.result.Success? <==>
              0 < amount <= s.wallets[w].balance && amount < CentsLimit
              && FitsDecimal(s.wallets[w].balance - amount)
    ensures o.result.Failure? ==> o.state == s
    ensures amount <= 0 && amount <= s.wallets[w].balance ==>
              o.result.Failure? && o.result.error.InvalidTransaction?
              && AmountNotPositive in o.result.error.errors
    ensures o.result.Success? ==>
              && o.result.value == TransactionRecord(w, None, None, amount, Withdrawal, Completed)
              && o.state.users == s.users
              && o.state.wallets == Credit(s.wallets, w, -amount)
              && o.state.transactions == s.transactions + [o.result.value]
  {
    var available := s.wallets[w].balance;
    if available < amount then
      Outcome(s, Failure(InsufficientFunds(available, amount)))
    else
      var pending := TransactionRecord(w, None, None, amount, Withdrawal, Pending);
      var errs := Transactions.Errors(pending, s.wallets.Keys);
      if errs != [] then
        Outcome(s, Failure(InvalidTransaction(errs)))
      else if !FitsDecimal(available - amount) then
        Outcome(s, Failure(StorageFailure))
      else
        var done := pending.(status := Completed);
        Outcome(Tables(s.users, Credit(s.wallets, w, -amount), s.transactions + [done]), Success(done))
  }

  /** `create_transfer!`. The sender's balance is checked before the record is
      validated, so a transfer to oneself of more than one holds reports
      insufficient funds, not an invalid transaction. */
  function TransferOutcome(s: Tables, from: WalletId, to: WalletId, amount: int): (o: Outcome)
    requires from in s.wallets && to in s.wallets
    ensures s.wallets[from].balance < amount ==>
              o == Outcome(s, Failure(InsufficientFunds(s.wallets[from].balance, amount)))
    ensures o.result.Success? <==>
              && 0 < amount <= s.wallets[from].balance && amount < CentsLimit
              && from != to
              && FitsDecimal(s.wallets[from].balance - amount)
              && FitsDecimal(s.wallets[to].balance + amount)
    ensures o.result.Failure? ==> o.state == s
    ensures amount <= s.wallets[from].balance && (amount <= 0 || from == to) ==>
              && o.result.Failure? && o.result.error.InvalidTransaction?
              && (AmountNotPositive in o.result.error.errors <==> amount <= 0)
              && (TransferPartiesEqual in o.result.error.errors <==> from == to)
    ensures o.result.Success? ==>
              && o.result.value == TransactionRecord(from, Some(from), Some(to), amount, Transfer, Completed)
              && o.state.users == s.users
              && o.state.wallets == Credit(Credit(s.wallets, from, -amount), to, amount)
              && o.state.transactions == s.transactions + [o.result.value]
              && o.state.wallets[from].balance + o.state.wallets[to].balance
                 == s.wallets[from].balance + s.wallets[to].balance
  {
    var available := s.wallets[from].balance;
    if available < amount then
      Outcome(s, Failure(InsufficientFunds(available, amount)))
    else
      var pending := TransactionRecord(from, Some(from), Some(to), amount, Transfer, Pending);
      var errs := Transactions.Errors(pending, s.wallets.Keys);
      if errs != [] then
        Outcome(s, Failure(InvalidTransaction(errs)))
      else if !FitsDecimal(available - amount) then
        Outcome(s, Failure(StorageFailure))
      else
        var debited := Credit(s.wallets, from, -amount);
        if !FitsDecimal(debited[to].balance + amount) then
          Outcome(s, Failure(StorageFailure))
        else
          var done := pending.(status := Completed);
          Outcome(Tables(s.users, Credit(debited, to, amount), s.transactions + [done]), Success(done))
  }

  /** Changing balances in place and appending one committed record keeps the
      tables consistent, as long as the new balances are valid. */
  lemma CommitKeepsConsistency(
    s: Tables, wallets: map<WalletId, Wallet>, record: TransactionRecord)
    requires Consistent(s)
    requires wallets.Keys == s.wallets.Keys
    requires forall w :: w in wallets ==> wallets[w].user == s.wallets[w].user
    requires forall w :: w in wallets ==> BalanceValid(wallets[w].balance)
    requires Committed(record, wallets.Keys)
    ensures Consistent(Tables(s.users, wallets, s.transactions + [record]))
  {
    SameOwners(s.wallets, wallets);
    var t := Tables(s.users, wallets, s.transactions + [record]);
    forall i | 0 <= i < |t.transactions|
      ensures Committed(t.transactions[i], wallets.Keys)
    {
      if i < |s.transactions| {
        assert t.transactions[i] == s.transactions[i];
      }
    }
  }

  lemma DepositKeepsConsistency(s: Tables, w: WalletId, amount: int)
    requires Consistent(s) && w in s.wallets
    ensures Consistent(DepositOutcome(s, w, amount).state)
  {
    var o := DepositOutcome(s, w, amount);
    if o.result.Success? {
      CommitKeepsConsistency(s, o.state.wallets, o.result.value);
    }
  }

  lemma WithdrawalKeepsConsistency(s: Tables, w: WalletId, amount: int)
    requires Consistent(s) && w in s.wallets
    ensures Consistent(WithdrawalOutcome(s, w, amount).state)
  {
    var o := WithdrawalOutcome(s, w, amount);
    if o.result.Success? {
      CommitKeepsConsistency(s, o.state.wallets, o.result.value);
    }
  }

  lemma TransferKeepsConsistency(s: Tables, from: WalletId, to: WalletId, amount: int)
    requires Consistent(s) && from in s.wallets && to in s.wallets
    ensures Consistent(TransferOutcome(s, from, to, amount).state)
  {
    var o := TransferOutcome(s, from, to, amount);
    if o.result.Success? {
      CommitKeepsConsistency(s, o.state.wallets, o.result.value);
    }
  }

  /** `create_deposit!(wallet:, amount:)`. */
  method CreateDeposit(db: Database, wallet: WalletId, amount: int)
    returns (r: Result<TransactionRecord, ServiceError>)
    requires db.Valid() && wallet in db.wallets
    modifies db
    ensures db.Valid()
    ensures Outcome(db.Snapshot(), r) == DepositOutcome(old(db.Snapshot()), wallet, amount)
    ensures db.lockLog == old(db.lockLog) + [wallet]
    ensures db.nextUserId == old(db.nextUserId) && db.nextWalletId == old(db.nextWalletId)
  {
    // ActiveRecord::Base.transaction: the state a rollback returns to
    var committedWallets, committedTransactions := db.wallets, db.transactions;
    db.Lock(wallet);
    // Transaction.create!: validate, then insert as pending
    var record := TransactionRecord(wallet, None, None, amount, Deposit, Pending);
    var errs := Transactions.Errors(record, db.wallets.Keys);
    if errs != [] {
      return Failure(InvalidTransaction(errs));
    }
    db.transactions := db.transactions + [record];
    // increment!(:balance, amount)
    var balance := db.wallets[wallet].balance + amount;
    if !FitsDecimal(balance) {
      db.wallets, db.transactions := committedWallets, committedTransactions;
      return Failure(StorageFailure);
    }
    db.wallets := db.wallets[wallet := db.wallets[wallet].(balance := balance)];
    // update!(status: :completed)
    record := record.(status := Completed);
    db.transactions := db.transactions[|db.transactions| - 1 := record];
    DepositKeepsConsistency(old(db.Snapshot()), wallet, amount);
    return Success(record);
  }

  /** `create_withdrawal!(wallet:, amount:)`. */
  method CreateWithdrawal(db: Database, wallet: WalletId, amount: int)
    returns (r: Result<TransactionRecord, ServiceError>)
    requires db.Valid() && wallet in db.wallets
    modifies db
    ensures db.Valid()
    ensures Outcome(db.Snapshot(), r) == WithdrawalOutcome(old(db.Snapshot()), wallet, amount)
    ensures db.lockLog == old(db.lockLog) + [wallet]
    ensures db.nextUserId == old(db.nextUserId) && db.nextWalletId == old(db.nextWalletId)
  {
    var committedWallets, committedTransactions := db.wallets, db.transactions;
    db.Lock(wallet);
    // the balance is read under the lock
    var available := db.wallets[wallet].balance;
    if available < amount {
      return Failure(InsufficientFunds(available, amount));
    }
    var record := TransactionRecord(wallet, None, None, amount, Withdrawal, Pending);
    var errs := Transactions.Errors(record, db.wallets.Keys);
    if errs != [] {
      return Failure(InvalidTransaction(errs));
    }
    db.transactions := db.transactions + [record];
    // decrement!(:balance, amount): 0 <= balance < available, so the column
    // cannot overflow
    var balance := available - amount;
    assert FitsDecimal(balance);
    db.wallets := db.wallets[wallet := db.wallets[wallet].(balance := balance)];
    record := record.(status := Completed);
    db.transactions := db.transactions[|db.transactions| - 1 := record];
    WithdrawalKeepsConsistency(old(db.Snapshot()), wallet, amount);
    return Success(record);
  }

  /** The locking step of `create_transfer!`: both rows, the lower id first. */
  method LockPair(db: Database, from: WalletId, to: WalletId)
    modifies db`lockLog
    ensures db.lockLog == old(db.lockLog) + LockOrder(from, to)
  {
    if from < to {
      db.Lock(from);
      db.Lock(to);
    } else {
      db.Lock(to);
      db.Lock(from);
    }
  }

  /** `create_transfer!(from_wallet:, to_wallet:, amount:)`. */
  method CreateTransfer(db: Database, from: WalletId, to: WalletId, amount: int)
    returns (r: Result<TransactionRecord, ServiceError>)
    requires db.Valid() && from in db.wallets && to in db.wallets
    modifies db
    ensures db.Valid()
    ensures Outcome(db.Snapshot(), r) == TransferOutcome(old(db.Snapshot()), from, to, amount)
    ensures db.lockLog == old(db.lockLog) + LockOrder(from, to)
    ensures db.nextUserId == old(db.nextUserId) && db.nextWalletId == old(db.nextWalletId)
  {
    var committedWallets, committedTransactions := db.wallets, db.transactions;
    LockPair(db, from, to);
    var available := db.wallets[from].balance;
    if available < amount {
      return Failure(InsufficientFunds(available, amount));
    }
    var record := TransactionRecord(from, Some(from), Some(to), amount, Transfer, Pending);
    var errs := Transactions.Errors(record, db.wallets.Keys);
    if errs != [] {
      return Failure(InvalidTransaction(errs));
    }
    db.transactions := db.transactions + [record];
    // decrement! on the sender, which cannot overflow
    var debited := available - amount;
    assert FitsDecimal(debited);
    db.wallets := db.wallets[from := db.wallets[from].(balance := debited)];
    assert db.wallets == Credit(committedWallets, from, -amount);
    // increment! on the receiver
    var credited := db.wallets[to].balance + amount;
    if !FitsDecimal(credited) {
      db.wallets, db.transactions := committedWallets, committedTransactions;
      return Failure(StorageFailure);
    }
    db.wallets := db.wallets[to := db.wallets[to].(balance := credited)];
    assert db.wallets == Credit(Credit(committedWallets, from, -amount), to, amount);
    record := record.(status := Completed);
    db.transactions := db.transactions[|db.transactions| - 1 := record];
    assert db.transactions == committedTransactions + [record];
    assert db.Snapshot() == TransferOutcome(old(db.Snapshot()), from, to, amount).state;
    TransferKeepsConsistency(old(db.Snapshot()), from, to, amount);
    return Success(record);
  }
}
