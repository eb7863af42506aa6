/** The `Wallet` model (app/models/wallet.rb): one row per user holding that
    user's balance, and the validations declared on it. */
module Wallets {
  import opened Schema

  type WalletId = int
  type UserId = int

  /** A row of the `wallets` table: the owning user and the balance in cents. */
  datatype Wallet = Wallet(user: UserId, balance: int)

  /** What the validations of a wallet can report, in declaration order. */
  datatype WalletError =
    | UserMustExist      // belongs_to :user
    | BalanceNegative    // numericality greater_than_or_equal_to: 0
    | BalanceOutOfRange  // numericality precision: 15, scale: 2
    | UserTaken          // uniqueness of user_id

  /** A balance that a committed wallet may hold. */
  predicate BalanceValid(balance: int) {
    0 <= balance && FitsDecimal(balance)
  }

  /** Some wallet other than `id` already belongs to `user`. */
  predicate OwnerTaken(wallets: map<WalletId, Wallet>, id: WalletId, user: UserId) {
    exists other :: other in wallets && other != id && wallets[other].user == user
  }

  /** The errors `wallet.valid?` collects for wallet `w` stored under `id`,
      given the other wallets and the ids of the existing users. */
  function Errors(id: WalletId, w: Wallet, wallets: map<WalletId, Wallet>, users: set<UserId>)
    : (errs: seq<WalletError>)
    ensures UserMustExist in errs <==> w.user !in users
    ensures BalanceNegative in errs <==> w.balance < 0
    ensures BalanceOutOfRange in errs <==> !FitsDecimal(w.balance)
    ensures UserTaken in errs <==> OwnerTaken(wallets, id, w.user)
    ensures errs == [] <==>
              w.user in users && BalanceValid(w.balance) && !OwnerTaken(wallets, id, w.user)
  {
    (if w.user !in users then [UserMustExist] else [])
    + (if w.balance < 0 then [BalanceNegative] else [])
    + (if !FitsDecimal(w.balance) then [BalanceOutOfRange] else [])
    + (if OwnerTaken(wallets, id, w.user) then [UserTaken] else [])
  }

  /** At most one wallet per user: the uniqueness rule on `user_id` and the
      unique index behind it. */
  predicate UniqueOwners(wallets: map<WalletId, Wallet>) {
    forall a, b :: a in wallets && b in wallets && wallets[a].user == wallets[b].user ==> a == b
  }

  /** The uniqueness rule holds of a whole table exactly when every wallet in it
      passes its own `user_id` uniqueness validation. */
  lemma UniqueOwnersIffNoneTaken(wallets: map<WalletId, Wallet>)
    ensures UniqueOwners(wallets) <==>
              forall id :: id in wallets ==> !OwnerTaken(wallets, id, wallets[id].user)
  {
    if !UniqueOwners(wallets) {
      var a, b :| a in wallets && b in wallets && wallets[a].user == wallets[b].user && a != b;
      assert OwnerTaken(wallets, a, wallets[a].user);
    }
  }

  /** The users that own a wallet. */
  function Owners(wallets: map<WalletId, Wallet>): set<UserId> {
    set w | w in wallets :: wallets[w].user
  }

  /** Changing balances leaves the owners as they were. */
  lemma SameOwners(m: map<WalletId, Wallet>, r: map<WalletId, Wallet>)
    requires m.Keys == r.Keys
    requires forall w :: w in m ==> m[w].user == r[w].user
    ensures Owners(r) == Owners(m)
  {
    forall u | u in Owners(m) ensures u in Owners(r) {
      var w :| w in m && m[w].user == u;
      assert r[w].user == u;
    }
    forall u | u in Owners(r) ensures u in Owners(m) {
      var w :| w in r && r[w].user == u;
      assert m[w].user == u;
    }
  }

  lemma NonEmptyHasWallet(wallets: map<WalletId, Wallet>)
    requires wallets != map[]
    ensures exists w :: w in wallets
  {
    if forall w :: w !in wallets {
      assert false;
    }
  }

  /** The sum of all balances, in cents. */
  ghost function Total(wallets: map<WalletId, Wallet>): int
    decreases |wallets|
  {
    if wallets == map[] then 0
    else
      NonEmptyHasWallet(wallets);
      var w :| w in wallets;
      wallets[w].balance + Total(wallets - {w})
  }

  /** The total can be split at any wallet, whichever one the definition picks. */
  lemma {:induction false} TotalRemove(wallets: map<WalletId, Wallet>, w: WalletId)
    requires w in wallets
    ensures Total(wallets) == wallets[w].balance + Total(wallets - {w})
    decreases |wallets|
  {
    var v :| v in wallets && Total(wallets) == wallets[v].balance + Total(wallets - {v});
    if v != w {
      TotalRemove(wallets - {v}, w);
      TotalRemove(wallets - {w}, v);
      assert wallets - {v} - {w} == wallets - {w} - {v};
    }
  }

  /** Replacing one wallet changes the total by exactly the change of its balance. */
  lemma TotalUpdate(wallets: map<WalletId, Wallet>, w: WalletId, x: Wallet)
    requires w in wallets
    ensures Total(wallets[w := x]) == Total(wallets) - wallets[w].balance + x.balance
  {
    var updated := wallets[w := x];
    TotalRemove(wallets, w);
    TotalRemove(updated, w);
    assert updated - {w} == wallets - {w};
  }
}
