/** The `Transaction` model (app/models/transaction.rb): one ledger record per
    balance-changing operation, with its type, amount, status and, for
    transfers, the initiating and receiving wallets. */
module Transactions {
  import opened Wrappers
  import opened Schema
  import opened Wallets

  /** The `transaction_type` enum. */
  datatype TransactionType = Deposit | Withdrawal | Transfer

  /** The integer stored in the `transaction_type` column. */
  function TypeCode(t: TransactionType): (code: nat)
    ensures code < 3
  {
    match t
    case Deposit => 0
    case Withdrawal => 1
    case Transfer => 2
  }

  /** Reading the `transaction_type` column back: only 0, 1 and 2 name a type,
      and each names the type that is stored as it. */
  function TypeFromCode(code: int): (t: Option<TransactionType>)
    ensures t.Some? <==> 0 <= code < 3
    ensures t.Some? ==> TypeCode(t.value) == code
  {
    if code == 0 then Some(Deposit)
    else if code == 1 then Some(Withdrawal)
    else if code == 2 then Some(Transfer)
    else None
  }

  /** Storing a type and reading it back gives the same type, so the encoding
      is one-to-one. */
  lemma TypeCodeRoundTrip(t: TransactionType)
    ensures TypeFromCode(TypeCode(t)) == Some(t)
  {
  }

  /** The lifecycle of a record, stored as 0, 1 and 2 in the `status` column. */
  datatype Status = Pending | Completed | Failed

  /** A row of the `transactions` table. `wallet` is the primary wallet;
      `initiator` and `receiver` are the nullable wallet references a transfer
      uses. `amount` is in cents. */
  datatype TransactionRecord = TransactionRecord(
    wallet: WalletId,
    initiator: Option<WalletId>,
    receiver: Option<WalletId>,
    amount: int,
    kind: TransactionType,
    status: Status)

  /** The wallets a record refers to through its foreign keys. */
  function References(t: TransactionRecord): set<WalletId> {
    {t.wallet}
    + (if t.initiator.Some? then {t.initiator.value} else {})
    + (if t.receiver.Some? then {t.receiver.value} else {})
  }

  /** What the validations of a record can report, in declaration order. */
  datatype ValidationError =
    | WalletMustExist          // belongs_to :wallet
    | AmountNotPositive        // numericality greater_than: 0
    | AmountOutOfRange         // numericality precision: 15, scale: 2
    | TransferPartiesMissing   // validate_transfer_wallets, first branch
    | TransferPartiesEqual     // validate_transfer_wallets, second branch

  /** The message each error adds to the record's errors. */
  function Message(e: ValidationError): (m: string)
    ensures |m| > 0
  {
    match e
    case WalletMustExist => "Wallet must exist"
    case AmountNotPositive => "Amount must be greater than 0"
    case AmountOutOfRange => "Amount must fit precision 15, scale 2"
    case TransferPartiesMissing => "Both initiator and receiver must be present for transfers"
    case TransferPartiesEqual => "Initiator and receiver must be different"
  }

  /** Distinct errors add distinct messages, so the joined messages still
      tell which rules a record broke. */
  lemma MessageIdentifiesError(a: ValidationError, b: ValidationError)
    ensures Message(a) == Message(b) <==> a == b
  {
  }

  /** `initiator.blank?` / `receiver.blank?`: the optional association is unset
      or names no existing wallet. */
  predicate Blank(ref: Option<WalletId>, wallets: set<WalletId>) {
    ref.None? || ref.value !in wallets
  }

  /** `validate_transfer_wallets`: at most one error, and a missing party is
      reported in preference to equal parties. */
  function TransferErrors(t: TransactionRecord, wallets: set<WalletId>): (errs: seq<ValidationError>)
    ensures |errs| <= 1
    ensures errs == [TransferPartiesMissing] <==>
              Blank(t.initiator, wallets) || Blank(t.receiver, wallets)
    ensures errs == [TransferPartiesEqual] <==>
              !Blank(t.initiator, wallets) && !Blank(t.receiver, wallets)
              && t.initiator.value == t.receiver.value
    ensures errs == [] <==>
              !Blank(t.initiator, wallets) && !Blank(t.receiver, wallets)
              && t.initiator.value != t.receiver.value
  {
    if Blank(t.initiator, wallets) || Blank(t.receiver, wallets) then
      [TransferPartiesMissing]
    else if t.initiator.value == t.receiver.value then
      [TransferPartiesEqual]
    else
      []
  }

  /** All the errors `record.valid?` collects, given the ids of the existing
      wallets. The pair check runs for transfers only. */
  function Errors(t: TransactionRecord, wallets: set<WalletId>): (errs: seq<ValidationError>)
    ensures WalletMustExist in errs <==> t.wallet !in wallets
    ensures AmountNotPositive in errs <==> t.amount <= 0
    ensures AmountOutOfRange in errs <==> !FitsDecimal(t.amount)
    ensures TransferPartiesMissing in errs <==>
              t.kind == Transfer && (Blank(t.initiator, wallets) || Blank(t.receiver, wallets))
    ensures TransferPartiesEqual in errs <==>
              t.kind == Transfer && !Blank(t.initiator, wallets) && !Blank(t.receiver, wallets)
              && t.initiator.value == t.receiver.value
  {
    (if t.wallet !in wallets then [WalletMustExist] else [])
    + (if t.amount <= 0 then [AmountNotPositive] else [])
    + (if !FitsDecimal(t.amount) then [AmountOutOfRange] else [])
    + (if t.kind == Transfer then TransferErrors(t, wallets) else [])
  }

  /** `record.valid?`: no validation reports an error. A record is valid
      exactly when its wallet exists, its amount is positive and fits the
      column, and, if it is a transfer, both parties exist and differ. */
  function IsValid(t: TransactionRecord, wallets: set<WalletId>): (ok: bool)
    ensures ok <==>
              && t.wallet in wallets
              && 0 < t.amount < CentsLimit
              && (t.kind == Transfer ==>
                    && t.initiator.Some? && t.initiator.value in wallets
                    && t.receiver.Some? && t.receiver.value in wallets
                    && t.initiator.value != t.receiver.value)
  {
    var errs := Errors(t, wallets);
    assert errs != [] ==> errs[0] in errs;
    errs == []
  }

  /** Whether a record is valid depends on the wallet table only through the
      wallets the record refers to. */
  lemma ValidityDependsOnReferences(t: TransactionRecord, a: set<WalletId>, b: set<WalletId>)
    requires References(t) <= a && References(t) <= b
    ensures IsValid(t, a) == IsValid(t, b)
  {
  }
}
