/** Properties of the ledger over sequences of operations. The service runs
    concurrent calls one after another, in the order their row locks are
    granted; so what its concurrency tests check of several threads is
    stated here of operations applied in sequence. */
module LedgerProperties {
  import opened Wrappers
  import opened Schema
  import opened Wallets
  import opened Transactions
  import opened Store
  import opened TransactionService

  /** One call into the service. */
  datatype Op =
    | DepositOp(wallet: WalletId, amount: int)
    | WithdrawalOp(wallet: WalletId, amount: int)
    | TransferOp(from: WalletId, to: WalletId, amount: int)

  /** The wallets a call names; the caller resolves them before calling. */
  function Touches(op: Op): set<WalletId> {
    match op
    case DepositOp(w, _) => {w}
    case WithdrawalOp(w, _) => {w}
    case TransferOp(from, to, _) => {from, to}
  }

  /** The effect of one call: it never adds or removes wallets or users,
      changes nothing when it fails, and returns only completed records. */
  function Apply(s: Tables, op: Op): (o: Outcome)
    requires Touches(op) <= s.wallets.Keys
    ensures o.state.wallets.Keys == s.wallets.Keys && o.state.users == s.users
    ensures o.result.Failure? ==> o.state == s
    ensures o.result.Success? ==>
              o.result.value.status == Completed && o.state.transactions == s.transactions + [o.result.value]
  {
    match op
    case DepositOp(w, amount) => DepositOutcome(s, w, amount)
    case WithdrawalOp(w, amount) => WithdrawalOutcome(s, w, amount)
    case TransferOp(from, to, amount) => TransferOutcome(s, from, to, amount)
  }

  /** Every call in `ops` names wallets of `s`. */
  predicate Resolved(s: Tables, ops: seq<Op>) {
    forall i :: 0 <= i < |ops| ==> Touches(ops[i]) <= s.wallets.Keys
  }

  /** The tables after running the calls of `ops` one after another. Running
      calls only appends to the record list and keeps the wallets and users. */
  function Run(s: Tables, ops: seq<Op>): (r: Tables)
    requires Resolved(s, ops)
    ensures r.wallets.Keys == s.wallets.Keys && r.users == s.users
    ensures s.transactions <= r.transactions
    decreases |ops|
  {
    if ops == [] then s
    else
      var next := Apply(s, ops[0]).state;
      assert Resolved(next, ops[1..]) by {
        forall i | 0 <= i < |ops[1..]| ensures Touches(ops[1..][i]) <= next.wallets.Keys {
          assert ops[1..][i] == ops[i + 1];
        }
      }
      Run(next, ops[1..])
  }

  /** One call keeps the tables consistent. */
  lemma ApplyKeepsConsistency(s: Tables, op: Op)
    requires Consistent(s) && Touches(op) <= s.wallets.Keys
    ensures Consistent(Apply(s, op).state)
  {
    match op
    case DepositOp(w, amount) => DepositKeepsConsistency(s, w, amount);
    case WithdrawalOp(w, amount) => WithdrawalKeepsConsistency(s, w, amount);
    case TransferOp(from, to, amount) => TransferKeepsConsistency(s, from, to, amount);
  }

  /** Any sequence of deposits, withdrawals and transfers keeps the tables
      consistent; in particular no committed balance is ever negative, and
      every record is completed. */
  lemma {:induction false} RunKeepsConsistency(s: Tables, ops: seq<Op>)
    requires Consistent(s) && Resolved(s, ops)
    ensures Consistent(Run(s, ops))
    ensures forall w :: w in Run(s, ops).wallets ==> Run(s, ops).wallets[w].balance >= 0
    ensures forall i :: 0 <= i < |Run(s, ops).transactions| ==>
              Run(s, ops).transactions[i].status == Completed
    decreases |ops|
  {
    if ops != [] {
      ApplyKeepsConsistency(s, ops[0]);
      var next := Apply(s, ops[0]).state;
      assert Resolved(next, ops[1..]) by {
        forall i | 0 <= i < |ops[1..]| ensures Touches(ops[1..][i]) <= next.wallets.Keys {
          assert ops[1..][i] == ops[i + 1];
        }
      }
      RunKeepsConsistency(next, ops[1..]);
    }
  }

  /** How much money a completed call brings into or takes out of the ledger. */
  function NetFlow(op: Op, result: Result<TransactionRecord, ServiceError>): int {
    if result.Failure? then 0
    else match op
      case DepositOp(_, amount) => amount
      case WithdrawalOp(_, amount) => -amount
      case TransferOp(_, _, _) => 0
  }

  /** The sum of all balances moves by exactly the money a call brings in or
      takes out: a transfer conserves it, a failed call leaves it alone. */
  lemma ApplyChangesTotalByNetFlow(s: Tables, op: Op)
    requires Touches(op) <= s.wallets.Keys
    ensures var o := Apply(s, op);
            Total(o.state.wallets) == Total(s.wallets) + NetFlow(op, o.result)
  {
    var o := Apply(s, op);
    if o.result.Success? {
      match op
      case DepositOp(w, amount) =>
        TotalUpdate(s.wallets, w, Credit(s.wallets, w, amount)[w]);
      case WithdrawalOp(w, amount) =>
        TotalUpdate(s.wallets, w, Credit(s.wallets, w, -amount)[w]);
      case TransferOp(from, to, amount) =>
        var debited := Credit(s.wallets, from, -amount);
        TotalUpdate(s.wallets, from, debited[from]);
        TotalUpdate(debited, to, Credit(debited, to, amount)[to]);
    }
  }

  /** `n` copies of one call. */
  function Repeat(op: Op, n: nat): (ops: seq<Op>)
    ensures |ops| == n && forall i :: 0 <= i < n ==> ops[i] == op
  {
    if n == 0 then [] else [op] + Repeat(op, n - 1)
  }

  /** No lost updates: `n` deposits of `amount` into one wallet all succeed,
      raise its balance by exactly `n * amount`, and add `n` completed deposit
      records, as long as the final balance fits its column. */
  lemma {:induction false} RepeatedDeposits(s: Tables, w: WalletId, amount: int, n: nat)
    requires w in s.wallets && BalanceValid(s.wallets[w].balance)
    requires 0 < amount && s.wallets[w].balance + n * amount < CentsLimit
    ensures var r := Run(s, Repeat(DepositOp(w, amount), n));
            && r.wallets[w].balance == s.wallets[w].balance + n * amount
            && r.transactions
               == s.transactions + seq(n, _ => TransactionRecord(w, None, None, amount, Deposit, Completed))
    decreases n
  {
    var ops := Repeat(DepositOp(w, amount), n);
    var record := TransactionRecord(w, None, None, amount, Deposit, Completed);
    if n > 0 {
      assert n * amount == (n - 1) * amount + amount;
      var next := DepositOutcome(s, w, amount).state;
      assert ops[1..] == Repeat(DepositOp(w, amount), n - 1);
      RepeatedDeposits(next, w, amount, n - 1);
      assert s.transactions + [record] + seq(n - 1, _ => record) == s.transactions + seq(n, _ => record);
    }
  }

  /** `n` withdrawals of `amount` from a wallet holding at least `n * amount`
      all succeed, lower its balance by exactly `n * amount`, and add `n`
      completed withdrawal records. */
  lemma {:induction false} RepeatedWithdrawals(s: Tables, w: WalletId, amount: int, n: nat)
    requires w in s.wallets && BalanceValid(s.wallets[w].balance)
    requires 0 < amount && n * amount <= s.wallets[w].balance
    ensures var r := Run(s, Repeat(WithdrawalOp(w, amount), n));
            && r.wallets[w].balance == s.wallets[w].balance - n * amount
            && r.transactions
               == s.transactions + seq(n, _ => TransactionRecord(w, None, None, amount, Withdrawal, Completed))
    decreases n
  {
    var ops := Repeat(WithdrawalOp(w, amount), n);
    var record := TransactionRecord(w, None, None, amount, Withdrawal, Completed);
    if n > 0 {
      assert n * amount == (n - 1) * amount + amount;
      var next := WithdrawalOutcome(s, w, amount).state;
      assert ops[1..] == Repeat(WithdrawalOp(w, amount), n - 1);
      RepeatedWithdrawals(next, w, amount, n - 1);
      assert s.transactions + [record] + seq(n - 1, _ => record) == s.transactions + seq(n, _ => record);
    }
  }

  /** The wallets after `a` has sent `x` to `b` and `b` has sent `y` back. */
  function Settled(wallets: map<WalletId, Wallet>, a: WalletId, b: WalletId, x: int, y: int)
    : map<WalletId, Wallet>
    requires a in wallets && b in wallets
  {
    wallets[a := Wallet(wallets[a].user, wallets[a].balance - x + y)]
           [b := Wallet(wallets[b].user, wallets[b].balance + x - y)]
  }

  /** A transfer from `a` to `b` followed by one back, each covered by its
      sender's balance before either ran, both complete and settle the
      difference. */
  lemma ThereAndBack(s: Tables, a: WalletId, b: WalletId, x: int, y: int)
    requires a in s.wallets && b in s.wallets && a != b
    requires BalanceValid(s.wallets[a].balance) && BalanceValid(s.wallets[b].balance)
    requires 0 < x <= s.wallets[a].balance && 0 < y <= s.wallets[b].balance
    requires s.wallets[a].balance + y < CentsLimit && s.wallets[b].balance + x < CentsLimit
    ensures var first := Apply(s, TransferOp(a, b, x));
            var second := Apply(first.state, TransferOp(b, a, y));
            && first.result.Success? && second.result.Success?
            && second.state.wallets == Settled(s.wallets, a, b, x, y)
  {
    var first := Apply(s, TransferOp(a, b, x));
    assert first.result.Success?;
    var w1 := first.state.wallets;
    assert w1[a].balance == s.wallets[a].balance - x;
    assert w1[b].balance == s.wallets[b].balance + x;
    var second := Apply(first.state, TransferOp(b, a, y));
    assert second.result.Success?;
    var w2 := second.state.wallets;
    var expected := Settled(s.wallets, a, b, x, y);
    assert w2.Keys == expected.Keys;
    forall v | v in w2 ensures w2[v] == expected[v] {
      if v != a && v != b {
        assert w2[v] == w1[v] == s.wallets[v];
      }
    }
  }

  /** Two transfers in opposite directions between the same two wallets, each
      covered by its sender's balance, both complete in whichever order their
      locks are granted, take their locks in the same order, and leave the
      same balances either way. */
  lemma OpposingTransfers(s: Tables, a: WalletId, b: WalletId, x: int, y: int)
    requires a in s.wallets && b in s.wallets && a != b
    requires BalanceValid(s.wallets[a].balance) && BalanceValid(s.wallets[b].balance)
    requires 0 < x <= s.wallets[a].balance && 0 < y <= s.wallets[b].balance
    requires s.wallets[a].balance + y < CentsLimit && s.wallets[b].balance + x < CentsLimit
    ensures LockOrder(a, b) == LockOrder(b, a)
    ensures var first := Apply(s, TransferOp(a, b, x));
            var second := Apply(first.state, TransferOp(b, a, y));
            first.result.Success? && second.result.Success?
    ensures var first := Apply(s, TransferOp(b, a, y));
            var second := Apply(first.state, TransferOp(a, b, x));
            first.result.Success? && second.result.Success?
    ensures Run(s, [TransferOp(a, b, x), TransferOp(b, a, y)]).wallets
            == Run(s, [TransferOp(b, a, y), TransferOp(a, b, x)]).wallets
  {
    LockOrderIgnoresDirection(a, b);
    ThereAndBack(s, a, b, x, y);
    ThereAndBack(s, b, a, y, x);
    RunTwo(s, TransferOp(a, b, x), TransferOp(b, a, y));
    RunTwo(s, TransferOp(b, a, y), TransferOp(a, b, x));
    SettledEitherWay(s.wallets, a, b, x, y);
  }

  /** Settling from either side gives the same wallets. */
  lemma SettledEitherWay(wallets: map<WalletId, Wallet>, a: WalletId, b: WalletId, x: int, y: int)
    requires a in wallets && b in wallets && a != b
    ensures Settled(wallets, a, b, x, y) == Settled(wallets, b, a, y, x)
  {
    var m1, m2 := Settled(wallets, a, b, x, y), Settled(wallets, b, a, y, x);
    assert m1.Keys == m2.Keys;
    forall v | v in m1 ensures m1[v] == m2[v] {
    }
  }

  /** Running two calls is applying one after the other. */
  lemma RunTwo(s: Tables, first: Op, second: Op)
    requires Touches(first) <= s.wallets.Keys && Touches(second) <= s.wallets.Keys
    ensures Resolved(s, [first, second])
    ensures Run(s, [first, second]) == Apply(Apply(s, first).state, second).state
  {
    var next := Apply(s, first).state;
    assert [first, second][1..] == [second];
    assert [second][1..] == [];
    assert Run(next, [second]) == Run(Apply(next, second).state, []);
  }

  /** A call with an amount of zero or less is rejected as an invalid
      transaction, whatever its kind, and changes nothing. */
  lemma NonPositiveAmountRejected(s: Tables, op: Op)
    requires Touches(op) <= s.wallets.Keys
    requires forall w :: w in Touches(op) ==> BalanceValid(s.wallets[w].balance)
    requires op.amount <= 0
    ensures var o := Apply(s, op);
            && o.state == s
            && o.result.Failure? && o.result.error.InvalidTransaction?
            && AmountNotPositive in o.result.error.errors
  {
    match op
    case DepositOp(w, _) =>
    case WithdrawalOp(w, _) => assert w in Touches(op);
    case TransferOp(from, _, _) => assert from in Touches(op);
  }
}
