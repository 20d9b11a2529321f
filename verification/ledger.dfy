/**
 * The records the engine works on: one `Transaction` per exchange ledger row and
 * one `Receipt` per wallet receive row, plus the asset lists that classify rows.
 */
module Ledger {
  import opened Wrappers

  /** Assets whose buys are costed and whose small rows are never treated as dust. */
  const TrackedAssets: set<string> := {"BTC", "ETH", "SOL", "PEPE", "DOT", "ADA", "XRP", "LTC", "USDG", "DOGE"}

  /** Fiat symbols; all of them are booked into the single `EUR` bucket. */
  const FiatAssets: set<string> := {"EUR", "EUR.HOLD", "USD"}

  /** No fiat symbol is a tracked asset. */
  lemma FiatIsNotTracked(a: string)
    requires a in FiatAssets
    ensures a !in TrackedAssets
  {
  }

  /** The synthetic bucket that receives every fiat row's amount. */
  const FiatBucket: string := "EUR"

  /**
   * One ledger row after cleaning. `kind` is the ledger's `type` column and
   * `assetClass` its `aclass` column. A positive `amount` is an inflow, a
   * negative one an outflow; `fee` is charged in the same asset.
   */
  datatype Transaction = Transaction(
    txid: string,
    refid: string,
    time: string,
    kind: string,
    subtype: string,
    assetClass: string,
    asset: string,
    amount: real,
    fee: real,
    balance: real)

  /**
   * One wallet receive row. `date` is `None` where the source stores Python's
   * `None` (a short row without a date cell).
   */
  datatype Receipt = Receipt(amount: real, date: Option<string>)

  function Abs(x: real): (r: real)
    ensures r >= 0.0 && (r == x || r == -x)
  {
    if x < 0.0 then -x else x
  }
}
