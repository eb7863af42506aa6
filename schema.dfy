/** The column type shared by `wallets.balance` and `transactions.amount`:
    `decimal(15, 2)`. Every amount in this model is a whole number of cents,
    so the scale of 2 is built into the representation, and the precision of
    15 digits bounds the number of cents. */
module Schema {

  /** 10^15: a `decimal(15, 2)` value, counted in cents, stays strictly
      below this in absolute value. */
  const CentsLimit: int := 1_000_000_000_000_000

  /** Whether a number of cents can be stored in a `decimal(15, 2)` column. */
  predicate FitsDecimal(cents: int) {
    -CentsLimit < cents < CentsLimit
  }
}
