/** Creating and destroying users (app/models/user.rb). Saving a valid user
    inserts it and then, in the `after_create` callback, creates its wallet
    with a zero balance; `has_one :wallet, dependent: :destroy` deletes the
    wallet when the user is destroyed. Both run in one atomic block, so an
    error in the second step undoes the first. */
module UserLifecycle {
  import opened Wrappers
  import opened Wallets
  import opened Transactions
  import opened Users
  import opened Store

  /** Why a user was not saved. */
  datatype RegistrationError =
    | InvalidUser(userErrors: seq<UserError>)
    | InvalidWallet(walletErrors: seq<WalletError>)

  /** The committed tables after saving a user, and the new user's id. */
  datatype Registration = Registration(state: Tables, result: Result<UserId, RegistrationError>)

  /** Saving a new user whose row gets id `uid` and whose wallet gets id `wid`
      (the next values of the tables' id sequences). */
  function RegisterOutcome(
    s: Tables, uid: UserId, wid: WalletId,
    name: Option<string>, email: Option<string>, wellFormed: bool): (o: Registration)
    requires uid !in s.users && wid !in s.wallets
    ensures o.result.Failure? ==> o.state == s
    ensures Users.Errors(name, email, Emails(s.users), wellFormed) != [] ==>
              o.result == Failure(InvalidUser(Users.Errors(name, email, Emails(s.users), wellFormed)))
    ensures Users.Blank(name) || Users.Blank(email) ==> o.result.Failure?
    ensures o.result.Success? ==>
              && o.result.value == uid
              && o.state.users == s.users[uid := User(name.value, email.value)]
              && o.state.wallets == s.wallets[wid := Wallet(uid, 0)]
              && o.state.transactions == s.transactions
  {
    var errs := Users.Errors(name, email, Emails(s.users), wellFormed);
    if errs != [] then
      Registration(s, Failure(InvalidUser(errs)))
    else
      var users := s.users[uid := User(name.value, email.value)];
      var wallet := Wallet(uid, 0);
      var walletErrs := Wallets.Errors(wid, wallet, s.wallets, users.Keys);
      if walletErrs != [] then
        Registration(s, Failure(InvalidWallet(walletErrs)))
      else
        Registration(Tables(users, s.wallets[wid := wallet], s.transactions), Success(uid))
  }

  /** Adding wallets keeps every stored record valid and within the table. */
  lemma RecordsSurviveNewWallets(ts: seq<TransactionRecord>, a: set<WalletId>, b: set<WalletId>)
    requires a <= b
    requires forall i :: 0 <= i < |ts| ==> Committed(ts[i], a)
    ensures forall i :: 0 <= i < |ts| ==> Committed(ts[i], b)
  {
    forall i | 0 <= i < |ts| ensures Committed(ts[i], b) {
      ValidityDependsOnReferences(ts[i], a, b);
    }
  }

  /** On consistent tables, a user that passes its own validations is always
      saved (its wallet's validations cannot fail), ends up with exactly one
      wallet, holding 0, and the tables stay consistent. */
  lemma RegisterKeepsConsistency(
    s: Tables, uid: UserId, wid: WalletId,
    name: Option<string>, email: Option<string>, wellFormed: bool)
    requires Consistent(s) && uid !in s.users && wid !in s.wallets
    ensures var o := RegisterOutcome(s, uid, wid, name, email, wellFormed);
            && Consistent(o.state)
            && (o.result.Success? <==> Users.Errors(name, email, Emails(s.users), wellFormed) == [])
            && (o.result.Success? ==>
                  forall w :: w in o.state.wallets && o.state.wallets[w].user == uid ==>
                    w == wid && o.state.wallets[w].balance == 0)
  {
    var errs := Users.Errors(name, email, Emails(s.users), wellFormed);
    if errs == [] {
      var users := s.users[uid := User(name.value, email.value)];
      var wallet := Wallet(uid, 0);
      assert Wallets.Errors(wid, wallet, s.wallets, users.Keys) == [];
      var o := RegisterOutcome(s, uid, wid, name, email, wellFormed);
      var wallets := s.wallets[wid := wallet];
      assert o.state == Tables(users, wallets, s.transactions);
      assert Owners(wallets) == Owners(s.wallets) + {uid} by {
        forall u | u in Owners(wallets) ensures u in Owners(s.wallets) + {uid} {
          var w :| w in wallets && wallets[w].user == u;
          if w != wid { assert s.wallets[w].user == u; }
        }
        forall u | u in Owners(s.wallets) ensures u in Owners(wallets) {
          var w :| w in s.wallets && s.wallets[w].user == u;
          assert wallets[w].user == u;
        }
        assert wallets[wid].user == uid;
      }
      forall a, b | a in wallets && b in wallets && wallets[a].user == wallets[b].user
        ensures a == b
      {
        if a != wid && b != wid {
          assert s.wallets[a].user == s.wallets[b].user;
        }
      }
      forall a, b | a in users && b in users && users[a].email == users[b].email
        ensures a == b
      {
        if a != uid && b != uid {
          assert s.users[a].email == s.users[b].email;
        }
      }
      RecordsSurviveNewWallets(s.transactions, s.wallets.Keys, wallets.Keys);
    }
  }

  /** A second user with an address already in use is rejected, and the
      tables do not change. */
  lemma DuplicateEmailRejected(
    s: Tables, uid: UserId, wid: WalletId, existing: UserId,
    name: Option<string>, wellFormed: bool)
    requires uid !in s.users && wid !in s.wallets && existing in s.users
    ensures var o := RegisterOutcome(s, uid, wid, name, Some(s.users[existing].email), wellFormed);
            && o.state == s
            && o.result.Failure? && o.result.error.InvalidUser?
            && EmailTaken in o.result.error.userErrors
  {
    assert s.users[existing].email in Emails(s.users);
  }

  /** The result of destroying a user: the committed tables, and whether the
      user and its wallet were deleted. */
  datatype Removal = Removal(state: Tables, removed: bool)

  /** Some record refers to the wallet through one of its foreign keys. */
  predicate Referenced(ts: seq<TransactionRecord>, w: WalletId) {
    exists i :: 0 <= i < |ts| && w in References(ts[i])
  }

  /** `user.destroy`, where `wid` is the user's wallet. The wallet is deleted
      first; the foreign keys of `transactions` refuse that while a record
      refers to it, and the whole destroy is rolled back. */
  function DestroyOutcome(s: Tables, uid: UserId, wid: WalletId): (o: Removal)
    requires uid in s.users && wid in s.wallets && s.wallets[wid].user == uid
    ensures o.removed <==> !Referenced(s.transactions, wid)
    ensures !o.removed ==> o.state == s
    ensures o.removed ==>
              && o.state.users.Keys == s.users.Keys - {uid}
              && o.state.wallets.Keys == s.wallets.Keys - {wid}
              && (forall u :: u in o.state.users ==> o.state.users[u] == s.users[u])
              && (forall w :: w in o.state.wallets ==> o.state.wallets[w] == s.wallets[w])
              && o.state.transactions == s.transactions
  {
    if Referenced(s.transactions, wid) then
      Removal(s, false)
    else
      Removal(Tables(s.users - {uid}, s.wallets - {wid}, s.transactions), true)
  }

  /** Destroying a user keeps the tables consistent, and when it succeeds no
      wallet of that user remains. */
  lemma DestroyKeepsConsistency(s: Tables, uid: UserId, wid: WalletId)
    requires Consistent(s)
    requires uid in s.users && wid in s.wallets && s.wallets[wid].user == uid
    ensures var o := DestroyOutcome(s, uid, wid);
            && Consistent(o.state)
            && (o.removed ==> uid !in Owners(o.state.wallets))
  {
    var o := DestroyOutcome(s, uid, wid);
    if o.removed {
      var wallets := s.wallets - {wid};
      assert Owners(wallets) == Owners(s.wallets) - {uid} by {
        forall u | u in Owners(wallets) ensures u in Owners(s.wallets) - {uid} {
          var w :| w in wallets && wallets[w].user == u;
          assert s.wallets[w].user == u;
        }
        forall u | u in Owners(s.wallets) - {uid} ensures u in Owners(wallets) {
          var w :| w in s.wallets && s.wallets[w].user == u;
          assert wallets[w].user == u;
        }
      }
      forall i | 0 <= i < |s.transactions|
        ensures Committed(s.transactions[i], wallets.Keys)
      {
        assert wid !in References(s.transactions[i]);
        ValidityDependsOnReferences(s.transactions[i], s.wallets.Keys, wallets.Keys);
      }
    }
  }

  /** `User.create!(name:, email:)`, with its `after_create :create_wallet`. */
  method CreateUser(db: Database, name: Option<string>, email: Option<string>, wellFormed: bool)
    returns (r: Result<UserId, RegistrationError>)
    requires db.Valid()
    modifies db
    ensures db.Valid()
    ensures Registration(db.Snapshot(), r)
            == RegisterOutcome(old(db.Snapshot()), old(db.nextUserId), old(db.nextWalletId),
                               name, email, wellFormed)
    ensures r.Success? ==> db.nextUserId == old(db.nextUserId) + 1 && db.nextWalletId == old(db.nextWalletId) + 1
    ensures r.Failure? ==> db.nextUserId == old(db.nextUserId) && db.nextWalletId == old(db.nextWalletId)
    ensures db.lockLog == old(db.lockLog)
  {
    var errs := Users.Errors(name, email, Emails(db.users), wellFormed);
    if errs != [] {
      return Failure(InvalidUser(errs));
    }
    var uid := db.nextUserId;
    db.users := db.users[uid := User(name.value, email.value)];
    db.nextUserId := db.nextUserId + 1;
    // after_create :create_wallet — create_wallet!(balance: 0.0)
    var wid := db.nextWalletId;
    var wallet := Wallet(uid, 0);
    RegisterKeepsConsistency(old(db.Snapshot()), uid, wid, name, email, wellFormed);
    assert Wallets.Errors(wid, wallet, db.wallets, db.users.Keys) == [];
    db.wallets := db.wallets[wid := wallet];
    db.nextWalletId := db.nextWalletId + 1;
    return Success(uid);
  }

  /** `user.destroy`, with `has_one :wallet, dependent: :destroy`. */
  method DestroyUser(db: Database, uid: UserId) returns (removed: bool)
    requires db.Valid() && uid in db.users
    modifies db
    ensures db.Valid()
    ensures forall wid :: wid in old(db.wallets) && old(db.wallets)[wid].user == uid ==>
              Removal(db.Snapshot(), removed) == DestroyOutcome(old(db.Snapshot()), uid, wid)
    ensures db.nextUserId == old(db.nextUserId) && db.nextWalletId == old(db.nextWalletId)
    ensures db.lockLog == old(db.lockLog)
  {
    assert uid in Owners(db.wallets);
    var wid :| wid in db.wallets && db.wallets[wid].user == uid;
    if exists i :: 0 <= i < |db.transactions| && wid in References(db.transactions[i]) {
      // the foreign keys of `transactions` refuse to delete the wallet
      return false;
    }
    DestroyKeepsConsistency(db.Snapshot(), uid, wid);
    db.wallets := db.wallets - {wid};
    db.users := db.users - {uid};
    return true;
  }
}
