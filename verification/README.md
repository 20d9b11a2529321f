# KrakenLedgerLens analysis engine in Dafny

This project models the engine of KrakenLedgerLens in Dafny. The engine reads a
Kraken ledger export and, optionally, a Trezor Suite wallet export, and
produces a portfolio report. The model covers its parts in pipeline order:

- **Loader** (`loader.dfy`, `numbers.dfy`, `text.dfy`):
  - header validation of both exports;
  - the ledger loader, which cleans every cell (strip, then drop double quotes) and reads ten columns;
  - `parse_float`, modelled as Python's `float()` on decimal text with a 0.0 fallback.
- **Wallet loader** (`wallet.dfy`): keeps the receive rows of the wallet export.
- **Portfolio aggregator** (`portfolio.dfy`, `costbasis.dfy`), `analyze_portfolio`:
  - pass 1 folds every row into per-asset accumulators;
  - pass 2 groups rows by `refid` and credits the buys.
- **DCA projector** (`dca.dfy`): the computation of `run_dca_scenarios`.
- **Wallet reconciler** (`reconcile.dfy`): `verify_withdrawals`, both as a
  functional scan threading the consumed flags and as the loop the source runs,
  proved equal.
- **Report assembly** (`report.dfy`): `generate_analysis_report`, with the fetched prices as a parameter.

`wrappers.dfy` (Option and Result) and `seqs.dfy` (an order-preserving filter and
sums) are shared helpers. `ledger.dfy` holds the records and the asset lists.

Records are sequences of strings: one per CSV record, the first being the
header. Amounts are exact `real`s. A Python exception that ends an operation is
an error value: `LoadError`, `DcaError` or `ReportError`. When it ends only a
loop, it is the `Abort` outcome of the wallet loader.

The model follows the code as written:

- **Dust rule.** An untracked asset's row is skipped whenever its amount is
  below 1e-7, which includes every negative amount, not only near-zero ones
  (`Portfolio.IsDust`).
- **Loader column names.** The ledger loader looks columns up exactly as
  spelled (`txid`, …, `balance`). Only the validator is case-insensitive.
- **Zero average.** The reduction percentage divides by the average price even
  when it is zero. `Report.GenerateReport` takes the reduction rule as a
  parameter: `DivideAlways` is the code as written, and `GuardZeroAverage` is
  the correction. See Findings.
- **Short wallet rows.** A wallet row shorter than the header can end the
  wallet scan instead of being skipped (`Wallet.ReadWalletRow`).

## Model

| member | source | states |
|---|---|---|
| Loader.Validate | app/core/analyze_portfolio.py:42-88 | Both validators share this check. No header gives `EmptyFile`. `Valid` holds iff every required column is the normalised form of some non-empty header. Otherwise the missing set is exactly the required columns no header offers, and it is non-empty. |
| Loader.ValidateLedger | app/core/analyze_portfolio.py:42-60 | The ledger check applies this to {txid, refid, time, type, asset, amount}, with headers stripped, quotes removed and lower-cased. |
| Loader.ValidateWallet | app/core/analyze_portfolio.py:62-88 | The wallet check applies this to {Date, Type, Amount}, stripped and quote-free, compared case-sensitively. |
| Loader.LedgerMessage | app/core/analyze_portfolio.py:48-58 | "Valid Kraken Ledger", "Empty CSV file.", or exactly "Missing columns: " followed by the missing columns joined with ", ": each missing column once and nothing else, in some order. |
| Loader.WalletMessage | app/core/analyze_portfolio.py:72-85 | "Valid Wallet CSV", "Empty CSV file.", or exactly "Missing columns: ", the missing columns joined with ", " (each once, nothing else, in some order), and ". Ensure this is a Trezor Suite export." |
| Loader.MissingList | app/core/analyze_portfolio.py:56 | The text is the join with ", " of a list holding each missing column exactly once and nothing else, so it names every missing column. |
| Loader.DataRows | app/core/analyze_portfolio.py:100-101 | The rows `DictReader` yields are exactly the non-blank records after the header, each once and in file order (the order-preserving filter of the records after the header). None is blank. |
| Loader.LastIndex | app/core/analyze_portfolio.py:103-117 | A repeated column name reads its last cell, and no later column has that name. |
| Loader.CleanField | app/core/analyze_portfolio.py:104 | The cleaned cell is the stripped cell with its double quotes removed and every other character kept in order. It holds no quote and is no longer than the raw cell. A quote-free cell without whitespace at either end is unchanged. |
| Loader.CleanRow | app/core/analyze_portfolio.py:103-104 | Cleaning keeps the row's length, one cleaned cell per raw cell. |
| Loader.FirstMissing | app/core/analyze_portfolio.py:106-117 | The first column the loader reads that the header lacks. `None` iff the header has every column. |
| Loader.LoadRow | app/core/analyze_portfolio.py:101-117 | A row with the wrong number of cells fails, because `.strip()` meets `None` or a list. A header missing a read column fails with the first such column in read order. Otherwise each of the ten fields is the cleaned cell of its column (the last one of a repeated name), with `amount`, `fee` and `balance` read by `parse_float`. |
| Loader.ConvertAll | app/core/analyze_portfolio.py:101-118 | Every row converts in order, or the result is the error of the first failing row, with every earlier row converting. |
| Loader.LoadLedger | app/core/analyze_portfolio.py:96-122 | One transaction per data row, in order. Any failure is the first failing row's error. A file with no records loads as empty. |
| Loader.PlainHeaderNormalizes | app/core/analyze_portfolio.py:52 | A trimmed, quote-free, lower-case header is unchanged by normalisation. |
| Loader.OfferedEverywhereValidates | app/core/analyze_portfolio.py:52-58 | A header that offers all six required columns is valid. |
| Loader.SixColumnHeaderValidates | app/core/analyze_portfolio.py:44-58 | The header of exactly the six required names is valid. |
| Loader.ValidatedLedgerMayNotLoad | app/core/analyze_portfolio.py:44-58 | The six-name header passes validation, yet loading its first full row fails on the missing `subtype` column. See Findings. |
| Loader.ValidateLedgerForLoading | app/core/analyze_portfolio.py:106-117 | The corrected validator is `Valid` iff the header names every column the loader reads, spelled exactly. Its missing set is exactly the absent ones. |
| Loader.LoadingValidatorIsStricter | app/core/analyze_portfolio.py:44-58 | Whatever the corrected validator accepts, the original accepts too. |
| Loader.ValidatedLedgerLoads | app/core/analyze_portfolio.py:96-122 | After the corrected validation, every file whose rows have one cell per column loads. |
| Text.StripSpec | app/core/analyze_portfolio.py:104 | `strip` removes exactly the leading and trailing whitespace. The rest is a slice of the input that starts and ends with non-space. |
| Text.RemoveQuotesIsFilter | app/core/analyze_portfolio.py:104 | Quote removal keeps exactly the characters other than `"`, in their original order (the order-preserving filter). |
| Text.RemoveQuotesCount | app/core/analyze_portfolio.py:104 | Quote removal leaves no `"`, shortens the text by exactly its number of quotes, and leaves quote-free text unchanged. |
| Text.LowerSpec | app/core/analyze_portfolio.py:52 | Lower-casing keeps the length and maps each capital A-Z, position by position, to its small letter (code point + 32), leaving every other character alone. No capital remains and the operation is idempotent. |
| Numbers.ParseFloat | app/core/analyze_portfolio.py:90-94 | `parse_float` returns `float()` of the text where that succeeds and 0.0 where it raises. In the model, where `inf`/`nan`, exponent and non-ASCII-digit text is unparsable, text without an ASCII digit reads as 0.0. |
| Numbers.IntegerRoundTrip | app/core/analyze_portfolio.py:90-94 | `parse_float` of an integer's text, with an optional minus sign and any surrounding whitespace, returns that integer. |
| Numbers.FixedRoundTrip | app/core/analyze_portfolio.py:90-94 | `parse_float` of fixed-point amount text such as `-0.0000100000`, with any surrounding whitespace, returns exactly `whole + frac / 10^places` with its sign. |
| Wallet.DictGet | app/core/analyze_portfolio.py:598-601 | `row.get` finds nothing for a column the header lacks. Otherwise it reads the cell at the last header position with that name, and `None` when the row ends before that position. A row as long as the header has a value for every header column. |
| Wallet.ReadWalletRow | app/core/analyze_portfolio.py:594-605 | A `None` type aborts the scan. A missing or non-receive type skips the row. For a receive row, a `None` amount aborts, an unparsable amount skips the row, and otherwise the row is kept. Its amount is `float()` of the cell, or 0 when the column is absent. Its date is the cell, `''` when the column is absent, or `None` for a short row. |
| Wallet.Gather | app/core/analyze_portfolio.py:593-607 | The loop's receipts are the receipts of kept rows only, at most one per row. `GatherIsKeptBeforeAbort` fixes them exactly. |
| Wallet.LoadWallet | app/core/analyze_portfolio.py:587-608 | The receipts are exactly those of the kept rows before the first aborting row, in file order, and an empty file gives none. So there are at most as many receipts as data rows, each the kept outcome of some row. |
| Wallet.GatherIsKeptBeforeAbort | app/core/analyze_portfolio.py:590-607 | An uncaught error ends the loop and keeps the receipts collected before it. |
| Wallet.WalletKeepsAllWithoutAbort | app/core/analyze_portfolio.py:594-605 | With no aborting row, the loader keeps every kept row's receipt, in file order. |
| Wallet.ReceiveTypes | app/core/analyze_portfolio.py:598-599 | "Recv", "recv" and "RECEIVED" are receive types in any letter case. |
| Portfolio.ApplyRow | app/core/analyze_portfolio.py:216-231 | A fiat row changes only the `EUR` bucket's amount. A dust row changes nothing. Any other row adds its amount and fee to its own asset. It adds to rewards iff the type is earn or reward, and adds the magnitude to withdrawn iff the type is withdrawal. Buy fields and other assets are untouched. |
| Portfolio.HoldingsDomain | app/core/analyze_portfolio.py:216-231 | The book after pass 1 has entries only for the `EUR` bucket and the assets of rows pass 1 does not skip. |
| CostBasis.HoldingsBuyZero | app/core/analyze_portfolio.py:216-231 | Pass 1 leaves every `buy_cost` and `buy_amt` at zero. |
| Portfolio.HoldingsAreTotals | app/core/analyze_portfolio.py:216-231 | After pass 1, each non-fiat asset's accumulators are the sums of amount, fee, reward amount and withdrawn magnitude over the rows booked on it. Its buy fields are zero. |
| Portfolio.FiatBucketIsNetFlow | app/core/analyze_portfolio.py:217-219 | The `EUR` bucket's amount is the net of all fiat rows. Its other fields are zero. |
| Portfolio.DustIsInvisible | app/core/analyze_portfolio.py:221 | Inserting a dust row anywhere in the ledger leaves pass 1 unchanged. |
| CostBasis.LastLeg | app/core/analyze_portfolio.py:243-247 | The pick is `None` iff no row of the group qualifies. Otherwise it is a qualifying row of the group. |
| CostBasis.LastLegIsLast | app/core/analyze_portfolio.py:243-247 | The pick is the last qualifying row: no later row of the group qualifies. |
| CostBasis.GroupBuy | app/core/analyze_portfolio.py:238-265 | A group is a buy iff it has a positive tracked `trade` leg and a negative fiat leg. The buy's asset and quantity are those of a crypto leg with no crypto leg after it in the group. Its cost is the magnitude of a fiat leg with no fiat leg after it. Cost and quantity are positive. |
| CostBasis.SimpleBuy | app/core/analyze_portfolio.py:249-265 | A spend/trade pair, in either order, buys the traded amount at the spent fiat amount. |
| CostBasis.LastSpendIsTheCost | app/core/analyze_portfolio.py:243-256 | A group with two fiat spends and one trade leg costs the second spend's magnitude, not the sum of both. |
| CostBasis.Refids | app/core/analyze_portfolio.py:212-214 | The groups are the distinct refids, and exactly those occurring in the ledger. |
| CostBasis.Group | app/core/analyze_portfolio.py:211-213 | A group holds exactly the ledger rows with its refid. |
| CostBasis.ApplyBuysUnbought | app/core/analyze_portfolio.py:235-265 | The loop over the groups leaves alone any asset that no visited group buys. |
| CostBasis.CostBases | app/core/analyze_portfolio.py:235-265 | Pass 2 changes only buy accumulators, never lowers them, and leaves untracked assets alone. |
| CostBasis.Analyze | app/core/analyze_portfolio.py:201-267 | `analyze_portfolio`: every accumulator but the buy ones is pass 1's. The buy ones are non-negative. An untracked asset is exactly as pass 1 left it. |
| CostBasis.Credit | app/core/analyze_portfolio.py:258-265 | A buy adds its cost and quantity to its asset's buy fields and changes nothing else. |
| CostBasis.ApplyBuysOnlyRaises | app/core/analyze_portfolio.py:235-265 | Pass 2 never lowers `buy_cost` or `buy_amt`, changes no other field, and never touches an untracked asset. |
| CostBasis.BuyTotalsNonNegative | app/core/analyze_portfolio.py:235-265 | After the analysis every `buy_cost` and `buy_amt` is non-negative. |
| CostBasis.ApplyBuysIsSum | app/core/analyze_portfolio.py:235-265 | Each group contributes once: the buy fields grow by the sum of the groups' buys of that asset. |
| CostBasis.OrderIndependent | app/core/analyze_portfolio.py:237 | Visiting the same distinct groups in any order gives the same portfolio. |
| CostBasis.NegativeCryptoRowKeepsCostBasis | app/core/analyze_portfolio.py:235-265 | Adding or removing a negative non-fiat row anywhere leaves every asset's `buy_cost` and `buy_amt` unchanged. |
| Dca.AveragePrice | app/core/analyze_portfolio.py:275 | The average times the quantity is the cost when something was bought. Otherwise the average is 0, with no division. |
| Dca.Project | app/core/analyze_portfolio.py:306-330 | Each of the three divisions fails exactly when its divisor is zero. The division by the average is skipped only under the guarded rule. On success, quantity × price = investment × (1 − 0.0026), the new total is the old plus the quantity, and new average × new total = cost + investment. The reduction times the average is (average − new average) × 100. |
| Dca.ProjectAll | app/core/analyze_portfolio.py:306-332 | The scenarios match the investments one to one and in order, or the result is the first failing investment's error. |
| Dca.RunDca | app/core/analyze_portfolio.py:269-334 | The plot has one point more than the investments: `(0, average)`, then each investment with its new average, in order. `is_profit` holds iff the price is at least the average. |
| Dca.NewAverageFormula | app/core/analyze_portfolio.py:310-315 | The new average is (cost + I) / (bought + I·(1 − 0.0026)/price). |
| Dca.NewAverageBetween | app/core/analyze_portfolio.py:306-315 | For positive quantity, investment and price, the new average lies between the old average and the fee-adjusted price price/0.9974. |
| Dca.ReductionPositiveIffCheaper | app/core/analyze_portfolio.py:317 | Buying at an effective price below the old average lowers the average and gives a positive reduction. The effective price is the market price divided by 1 − 0.0026, so the 0.26% fee is included. Buying at an effective price at or above the old average does neither. |
| Dca.ZeroInvestmentKeepsAverage | app/core/analyze_portfolio.py:312-315 | Investing nothing leaves the average unchanged. |
| Dca.ZeroAverageFailsAsWritten | app/core/analyze_portfolio.py:317 | With nothing bought, the division by the zero average fails on the first investment. The guarded rule succeeds. |
| Dca.GuardedNeverFails | app/core/analyze_portfolio.py:306-317 | With the zero-average guard, positive investments at a positive price never fail. |
| Reconcile.Withdrawals | app/core/analyze_portfolio.py:614 | Exactly the BTC rows of type withdrawal take part. |
| Reconcile.ToleranceWindow | app/core/analyze_portfolio.py:638-654 | The sent amount, and that amount less 0.00001 or 0.00002, are accepted. Every accepted amount lies strictly between the sent amount less (0.00002 + 1e-6) and the sent amount plus 1e-8. A receipt short by at least 1e-8 and at most 0.00001 − 1e-6 is rejected. |
| Reconcile.Pick | app/core/analyze_portfolio.py:631-654 | The pick is an unconsumed receipt within one of the three tolerances, and no earlier receipt is. `None` iff no receipt qualifies. |
| Reconcile.Scan | app/core/analyze_portfolio.py:627-667 | One pick per withdrawal. No receipt is picked twice. A receipt is found at the end iff some withdrawal picked it. |
| Reconcile.MatchesOf | app/core/analyze_portfolio.py:656-667 | Every match is the record of a withdrawal that picked a receipt: the withdrawal's time and magnitude with the receipt's date and amount. There is at most one per withdrawal. |
| Reconcile.Flagged | app/core/analyze_portfolio.py:695 | A receipt is kept iff its found flag has the wanted value. |
| Reconcile.FlaggedAppend | app/core/analyze_portfolio.py:695 | Selecting from a concatenation selects from each part and concatenates the results, so the kept receipts stay in their original order. |
| Reconcile.FlaggedOne | app/core/analyze_portfolio.py:695 | A single receipt is kept iff its flag is the wanted one. |
| Reconcile.Verify | app/core/analyze_portfolio.py:610-707 | `verify_withdrawals`: `kraken_out` is the sum of the withdrawals' magnitudes, `wallet_in` the sum of the receipts, and `diff` is `wallet_in − kraken_out`. There is at most one match per withdrawal, and every orphan is a receipt. |
| Reconcile.GreedyEarliest | app/core/analyze_portfolio.py:627-667 | Withdrawal k takes the earliest receipt that is unconsumed after the first k withdrawals and matches a tolerance rule. It stays unmatched only if none does. |
| Reconcile.MatchesAndOrphansCoverReceipts | app/core/analyze_portfolio.py:603-695 | With every receipt initially unfound, the matches and the orphans together number exactly the receipts. |
| Reconcile.MatchedAndOrphanAmountsAddUp | app/core/analyze_portfolio.py:673-695 | The matched wallet amounts plus the orphans' amounts equal `wallet_in`. |
| Reconcile.VerifyWithdrawals | app/core/analyze_portfolio.py:610-707 | The loop with a mutable found flag per receipt computes the same matches, orphans and totals as the functional scan. |
| Reconcile.FindReceipt | app/core/analyze_portfolio.py:631-654 | The inner loop finds the earliest unconsumed receipt within tolerance. |
| Reconcile.CollectOrphans | app/core/analyze_portfolio.py:695 | The orphans are the unfound receipts in their original order. |
| Report.HeldAssets | app/core/analyze_portfolio.py:724 | An asset is held iff it is non-fiat with a positive balance or a positive withdrawn total. |
| Report.Fetched | app/core/analyze_portfolio.py:725 | Prices are known only for held assets. |
| Report.RowFor | app/core/analyze_portfolio.py:735-754 | value = balance × price and P/L = value − cost. A missing price is 0, giving value 0 and P/L = −cost. |
| Text.SortedSet | app/core/analyze_portfolio.py:733 | `sorted()` of a set lists each element exactly once, in strictly ascending order of Python's string comparison (code point by code point, a proper prefix first). |
| Report.Rows | app/core/analyze_portfolio.py:733-758 | Exactly the listed assets get a row, in strictly ascending order. |
| Report.Listing | app/core/analyze_portfolio.py:724-758 | The portfolio list has exactly the held assets not below 1e-6 in both balance and withdrawn, strictly ascending. Each is valued at its fetched price. |
| Report.BtcPrice | app/core/analyze_portfolio.py:771 | The BTC price the DCA step sees is the given price when BTC is held and priced, and 0 otherwise. |
| Report.DcaStep | app/core/analyze_portfolio.py:770-779 | DCA runs iff the BTC price is positive. A DCA failure becomes a report failure. |
| Report.ReportOf | app/core/analyze_portfolio.py:709-790 | It counts every transaction. `total_value` and `total_cost` sum the rows. `net_pl` is the sum of row P/Ls. The wallet reconciliation is present iff a wallet export is given. The report fails iff the DCA step fails. |
| Report.GenerateReport | app/core/analyze_portfolio.py:709-790 | The report fails iff the ledger does not load, with the loader's error, or the loaded report fails under the given reduction rule. Otherwise it is the report of the loaded transactions. |
| Report.GuardedGenerateReport | app/core/analyze_portfolio.py:709-790 | With the zero-average guard, the report fails iff the ledger does not load. |
| Report.NetIsSumOfProfits | app/core/analyze_portfolio.py:757-767 | `total_value − total_cost` is the sum of the row P/Ls. |
| Report.DcaWhenBtcPriced | app/core/analyze_portfolio.py:770-779 | `dca_analysis` is present iff BTC is held and priced above 0. It then reports BTC's buy cost, quantity and price, with six plot points. |
| Report.GuardedReportSucceeds | app/core/analyze_portfolio.py:770-779 | With the zero-average guard, a loaded ledger always yields a report. |
| Report.UnboughtBtcFailsAsWritten | app/core/analyze_portfolio.py:775-777 | A priced BTC holding that was never bought makes the report fail with the zero-average division. See Findings. |
| Report.SingleDepositFailsAsWritten | app/core/analyze_portfolio.py:775-777 | Concretely, a ledger of one BTC deposit with a positive BTC price makes the report fail. |
| Report.UnboughtBtcReportFailsAsWritten | app/core/analyze_portfolio.py:770-777 | End to end: a loadable ledger whose BTC holding was never bought, with a positive BTC price, makes the report as written fail with the zero-average division. The guarded report succeeds. |

## Left out

- Reading files is not modelled: opening, UTF-8 decoding, the byte-order mark, CSV quoting rules, and `sys.exit` on a missing file. The CSV records are the input.
- An I/O or decoding exception whose text becomes the validator's message is not modelled.
- `get_crypto_prices` is not modelled, because it calls the network. Its result is the `prices` parameter, restricted to the held assets as the function only returns prices it was asked for.
- `generate_charts`, `print_glossary`, `print_colored` and every `print` are left out as presentation only. The report carries no chart paths.
- The command-line block and `app/bot.py` are not part of this model.
- Numbers.ParseFloat: text that Python's `float()` accepts but the model reads as unparsable yields 0.0 in the model, where the source yields a number. This covers `inf`/`nan`/`Infinity`, exponents such as `1e-5`, digit underscores such as `1_000`, and non-ASCII decimal digits such as Arabic-Indic digits. The "no ASCII digit reads as 0.0" clause holds only in the model for that reason. Ledger and wallet exports write plain decimals.
- Numbers.PythonFloat: covers Python's `float()` only on decimal text: sign, digits, optional fraction, surrounding whitespace. It does not model exponents, `inf`/`nan` or digit underscores, so such text reads as unparsable.
- Binary floating-point rounding is not modelled: amounts are exact reals, so sums are exact.
- Text.Lower and Text.Upper: map only ASCII letters. Python's full Unicode case mapping is left out.
- Loader.MissingList: lists the missing columns in ascending order. Python joins a set in an unspecified order, so the contract fixes which columns are listed, each once, but not their order.
- Loader.LedgerMessage: fixes the message up to the order of the missing columns, for the same reason.
- Loader.WalletMessage: fixes the message up to the order of the missing columns, for the same reason.
- Dca.RunDca: does not take the unused `asset` and `current_holdings` arguments. The asset name in the summary and all printed text are omitted.
- Report.ReportOf: omits `chart_paths`, the unused `dca_btc_data` list and the empty BTC branch of the listing loop (lines 731 and 761-762), which have no effect on the report's data.
- The 1e-4 "totals match" threshold of `verify_withdrawals` (line 688) only chooses a printed message and is not modelled.

## Findings

| source | as written | input that shows it | evidently intended | confidence | as-written member | corrected member |
|---|---|---|---|---|---|---|
| app/core/analyze_portfolio.py:317 | The reduction percentage divides by the average price with no guard. Line 275 sets that average to 0 when nothing was bought. `generate_analysis_report` runs the projection whenever BTC has a positive price (line 775), so the report raises `ZeroDivisionError`. | A ledger of one BTC deposit (no trades) and a positive BTC price. | The zero average is guarded as at line 275, with no reduction reported. | high; not executed | Report.UnboughtBtcReportFailsAsWritten | Report.GuardedGenerateReport |
| app/core/analyze_portfolio.py:44 | The ledger validator requires six case-insensitive columns. `load_csv` (lines 106-117) also reads `subtype`, `aclass`, `fee` and `balance`, and looks every column up with exact case, so it raises `KeyError` on a header the validator accepted. | The header `txid,refid,time,type,asset,amount` with one six-cell data row. | The validator requires every column the loader reads, spelled as the loader reads it. | medium; not executed | Loader.ValidatedLedgerMayNotLoad | Loader.ValidateLedgerForLoading |
