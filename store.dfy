/** The database the ledger runs against: the `users`, `wallets` and
    `transactions` tables (db/schema.rb), the invariants their validations,
    callbacks and constraints keep, and the row locks taken on wallets. */
module Store {
  import opened Wrappers
  import opened Schema
  import opened Wallets
  import opened Transactions
  import opened Users

  /** The committed contents of the three tables. */
  datatype Tables = Tables(
    users: map<UserId, User>,
    wallets: map<WalletId, Wallet>,
    transactions: seq<TransactionRecord>)

  /** A record as it stands after its operation committed. */
  predicate Committed(t: TransactionRecord, wallets: set<WalletId>) {
    t.status == Completed && References(t) <= wallets && IsValid(t, wallets)
  }

  /** What holds of the tables between operations:
      - every wallet belongs to an existing user and every user has a wallet,
        and no user has two;
      - every balance is non-negative and fits its column;
      - users are presentable and have distinct e-mail addresses;
      - every record is completed, valid, and refers to existing wallets. */
  ghost predicate Consistent(t: Tables) {
    && Owners(t.wallets) == t.users.Keys
    && UniqueOwners(t.wallets)
    && (forall w :: w in t.wallets ==> BalanceValid(t.wallets[w].balance))
    && UniqueEmails(t.users)
    && (forall u :: u in t.users ==> Presentable(t.users[u]))
    && (forall i :: 0 <= i < |t.transactions| ==> Committed(t.transactions[i], t.wallets.Keys))
  }

  /** On consistent tables every stored row passes the validations it was
      saved under: each wallet reports no error, and each user's name and
      address are present and the address is not in use by another user. */
  lemma ConsistentRowsValid(t: Tables)
    requires Consistent(t)
    ensures forall w :: w in t.wallets ==>
              Wallets.Errors(w, t.wallets[w], t.wallets, t.users.Keys) == []
    ensures forall u :: u in t.users ==>
              !Users.Blank(Some(t.users[u].name)) && !Users.Blank(Some(t.users[u].email))
              && t.users[u].email !in Emails(t.users - {u})
  {
    forall w | w in t.wallets
      ensures Wallets.Errors(w, t.wallets[w], t.wallets, t.users.Keys) == []
    {
      assert t.wallets[w].user in Owners(t.wallets);
    }
  }

  /** The empty database is consistent. */
  lemma EmptyConsistent()
    ensures Consistent(Tables(map[], map[], []))
  {
  }

  /** The store: the three tables, the id sequences of `users` and `wallets`,
      and a log of the row locks taken on wallets. */
  class Database {
    var users: map<UserId, User>
    var wallets: map<WalletId, Wallet>
    var transactions: seq<TransactionRecord>
    var nextUserId: UserId
    var nextWalletId: WalletId
    /** Every `lock!` taken on a wallet row, in the order taken. */
    ghost var lockLog: seq<WalletId>

    /** The committed tables. */
    function Snapshot(): Tables
      reads this`users, this`wallets, this`transactions
    {
      Tables(users, wallets, transactions)
    }

    ghost predicate Valid()
      reads this`users, this`wallets, this`transactions, this`nextUserId, this`nextWalletId
    {
      && Consistent(Snapshot())
      && (forall u :: u in users ==> u < nextUserId)
      && (forall w :: w in wallets ==> w < nextWalletId)
    }

    /** A fresh database with empty tables; ids start at 1. */
    constructor ()
      ensures Valid()
      ensures Snapshot() == Tables(map[], map[], [])
      ensures nextUserId == 1 && nextWalletId == 1 && lockLog == []
    {
      users, wallets, transactions := map[], map[], [];
      nextUserId, nextWalletId := 1, 1;
      lockLog := [];
    }

    /** `wallet.lock!`: take the row lock on a wallet, held until the
        enclosing atomic block ends. */
    method Lock(wallet: WalletId)
      modifies this`lockLog
      ensures lockLog == old(lockLog) + [wallet]
    {
      lockLog := lockLog + [wallet];
    }
  }
}
