/**
 * `generate_analysis_report`: load the ledger, analyse it, value every held
 * asset at the fetched prices, total the values and costs, run the DCA
 * projection for BTC when it has a price, and reconcile the wallet when a
 * wallet export is given. Fetching prices and drawing charts are outside the
 * model: the prices are a parameter.
 */
module Report {
  import opened Wrappers
  import opened Ledger
  import opened Seqs
  import opened Text
  import opened Portfolio
  import opened CostBasis
  import opened Dca
  import Loader
  import Wallet
  import Reconcile

  /** Below this on both balance and withdrawn total an asset is not listed. */
  const ListingThreshold: real := 0.000001

  /** One entry of the report's portfolio list. */
  datatype AssetRow = AssetRow(
    asset: string,
    balance: real,
    price: real,
    value: real,
    costBasis: real,
    pl: real,
    rewards: real,
    withdrawn: real)

  datatype Report = Report(
    transactionsCount: nat,
    portfolio: seq<AssetRow>,
    totalValue: real,
    totalCost: real,
    netPl: real,
    dcaAnalysis: Option<DcaSummary>,
    dcaPlot: seq<PlotPoint>,
    walletVerification: Option<Reconcile.Verification>)

  /** Why no report comes back: the ledger did not load, or the DCA projection raised. */
  datatype ReportError = LedgerUnreadable(error: Loader.LoadError) | DcaFailed(reason: DcaError)

  /** The assets prices are fetched for: non-fiat assets with a positive balance or any withdrawal. */
  function HeldAssets(book: Book): (held: set<string>)
    ensures forall a :: a in held <==> a in book && a !in FiatAssets && (book[a].amount > 0.0 || book[a].withdrawn > 0.0)
  {
    set a | a in book && a !in FiatAssets && (book[a].amount > 0.0 || book[a].withdrawn > 0.0)
  }

  /** The price fetch only answers for the assets it was asked about. */
  function Fetched(prices: map<string, real>, held: set<string>): (r: map<string, real>)
    ensures forall a :: a in r <==> a in prices && a in held
    ensures forall a | a in r :: r[a] == prices[a]
  {
    map a | a in prices && a in held :: prices[a]
  }

  /** `prices.get(asset, 0)`. */
  function PriceOf(prices: map<string, real>, a: string): real
  {
    if a in prices then prices[a] else 0.0
  }

  /** An asset is listed unless both its balance and its withdrawn total are below the threshold. */
  predicate Listed(s: AssetState)
  {
    !(s.amount < ListingThreshold && s.withdrawn < ListingThreshold)
  }

  function RowFor(book: Book, prices: map<string, real>, a: string): (r: AssetRow)
    ensures r.asset == a && r.balance == Get(book, a).amount && r.price == PriceOf(prices, a)
    ensures r.value == r.balance * r.price && r.costBasis == Get(book, a).buyCost
    ensures r.pl == r.value - r.costBasis
    ensures r.rewards == Get(book, a).rewards && r.withdrawn == Get(book, a).withdrawn
    ensures a !in prices ==> r.price == 0.0 && r.value == 0.0 && r.pl == -r.costBasis
  {
    var s := Get(book, a);
    var price := PriceOf(prices, a);
    var value := s.amount * price;
    AssetRow(a, s.amount, price, value, s.buyCost, value - s.buyCost, s.rewards, s.withdrawn)
  }

  /** Strictly ascending: ordered by `LessEq` and without repeats. */
  predicate Ascending(xs: seq<string>)
  {
    forall i, j | 0 <= i < j < |xs| :: LessEq(xs[i], xs[j]) && xs[i] != xs[j]
  }

  /** The loop over the sorted held assets. */
  function Rows(book: Book, prices: map<string, real>, assets: seq<string>): (rows: seq<AssetRow>)
    requires Ascending(assets)
    ensures forall i | 0 <= i < |rows| ::
              rows[i].asset in assets && Listed(Get(book, rows[i].asset)) && rows[i] == RowFor(book, prices, rows[i].asset)
    ensures forall a | a in assets && Listed(Get(book, a)) :: exists i | 0 <= i < |rows| :: rows[i].asset == a
    ensures forall i, j | 0 <= i < j < |rows| :: LessEq(rows[i].asset, rows[j].asset) && rows[i].asset != rows[j].asset
  {
    if |assets| == 0 then []
    else
      var n := |assets| - 1;
      var a := assets[n];
      var init := Rows(book, prices, assets[..n]);
      assert forall i | 0 <= i < |init| :: init[i].asset in assets[..n];
      if Listed(Get(book, a)) then
        var rows := init + [RowFor(book, prices, a)];
        assert rows[|init|].asset == a;
        assert forall i | 0 <= i < |init| :: rows[i] == init[i];
        rows
      else init
  }

  function ValueOf(r: AssetRow): real { r.value }

  function CostOf(r: AssetRow): real { r.costBasis }

  function PlOf(r: AssetRow): real { r.pl }

  /** Only held assets have a fetched price, and that price is the one the fetch returned. */
  lemma HeldAssetPrice(book: Book, prices: map<string, real>, a: string)
    requires a in HeldAssets(book)
    ensures RowFor(book, Fetched(prices, HeldAssets(book)), a) == RowFor(book, prices, a)
  {
  }

  /**
   * The report's portfolio list: the held assets above the listing threshold,
   * in ascending order, each valued at its fetched price.
   */
  function Listing(book: Book, prices: map<string, real>): (rows: seq<AssetRow>)
    ensures forall a :: (exists i | 0 <= i < |rows| :: rows[i].asset == a) <==> a in HeldAssets(book) && Listed(Get(book, a))
    ensures forall i | 0 <= i < |rows| :: rows[i] == RowFor(book, prices, rows[i].asset)
    ensures forall i, j | 0 <= i < j < |rows| :: LessEq(rows[i].asset, rows[j].asset) && rows[i].asset != rows[j].asset
  {
    var held := HeldAssets(book);
    var sorted := SortedSet(held);
    var rows := Rows(book, Fetched(prices, held), sorted);
    forall i | 0 <= i < |rows| ensures rows[i] == RowFor(book, prices, rows[i].asset) {
      HeldAssetPrice(book, prices, rows[i].asset);
    }
    forall a ensures (exists i | 0 <= i < |rows| :: rows[i].asset == a) <==> a in held && Listed(Get(book, a)) {
      if a in held && Listed(Get(book, a)) {
        assert a in sorted;
      }
    }
    rows
  }

  /** The BTC price the report uses: fetched only when BTC is held, zero when missing. */
  function BtcPrice(book: Book, prices: map<string, real>): (p: real)
    ensures p == (if "BTC" in HeldAssets(book) && "BTC" in prices then prices["BTC"] else 0.0)
  {
    PriceOf(Fetched(prices, HeldAssets(book)), "BTC")
  }

  /** The DCA step: run only when BTC has a positive price; a failure aborts the report. */
  function DcaStep(btc: AssetState, price: real, rule: ReductionRule)
    : (r: Result<(seq<PlotPoint>, Option<DcaSummary>), ReportError>)
    ensures price <= 0.0 ==> r == Ok(([], None))
    ensures price > 0.0 ==>
              match RunDca(btc.buyCost, btc.buyAmt, price, DefaultInvestments, rule)
              case Ok((plot, summary)) => r == Ok((plot, Some(summary)))
              case Err(e) => r == Err(DcaFailed(e))
  {
    if price > 0.0 then
      match RunDca(btc.buyCost, btc.buyAmt, price, DefaultInvestments, rule)
      case Ok((plot, summary)) => Ok((plot, Some(summary)))
      case Err(e) => Err(DcaFailed(e))
    else Ok(([], None))
  }

  /**
   * The report for already loaded transactions. It fails only when the DCA
   * step does; it counts every transaction, its totals add up the listing and
   * its net result is the sum of the listed profits, and it carries a wallet
   * reconciliation exactly when a wallet export was given.
   */
  function ReportOf(txs: seq<Transaction>, wallet: Option<seq<seq<string>>>, prices: map<string, real>, rule: ReductionRule)
    : (r: Result<Report, ReportError>)
    ensures var book := Analyze(txs);
            var dca := DcaStep(Get(book, "BTC"), BtcPrice(book, prices), rule);
            && (r.Err? <==> dca.Err?)
            && (r.Err? ==> r.error == dca.error)
    ensures r.Ok? ==>
              var v, book := r.value, Analyze(txs);
              && v.transactionsCount == |txs|
              && v.portfolio == Listing(book, prices)
              && v.totalValue == SumOf(v.portfolio, ValueOf)
              && v.totalCost == SumOf(v.portfolio, CostOf)
              && v.netPl == SumOf(v.portfolio, PlOf)
              && (v.dcaPlot, v.dcaAnalysis) == DcaStep(Get(book, "BTC"), BtcPrice(book, prices), rule).value
              && (v.walletVerification.Some? <==> wallet.Some?)
              && (wallet.Some? ==> v.walletVerification.value == Reconcile.Verify(txs, Wallet.LoadWallet(wallet.value)))
  {
    var book := Analyze(txs);
    var rows := Listing(book, prices);
    var totalValue, totalCost := SumOf(rows, ValueOf), SumOf(rows, CostOf);
    NetIsSumOfProfits(rows);
    var (plot, dca) :- DcaStep(Get(book, "BTC"), BtcPrice(book, prices), rule);
    var verification := match wallet
      case None => None
      case Some(records) => Some(Reconcile.Verify(txs, Wallet.LoadWallet(records)));
    Ok(Report(|txs|, rows, totalValue, totalCost, totalValue - totalCost, dca, plot, verification))
  }

  /**
   * `generate_analysis_report` on the ledger's records, the wallet export's
   * records if one exists, and the fetched prices. It fails when the ledger
   * does not load or when the DCA projection under `rule` raises;
   * `DivideAlways` is the code as written.
   */
  function GenerateReport(ledger: seq<seq<string>>, wallet: Option<seq<seq<string>>>, prices: map<string, real>, rule: ReductionRule)
    : (r: Result<Report, ReportError>)
    ensures r.Err? <==> Loader.LoadLedger(ledger).Err? || ReportOf(Loader.LoadLedger(ledger).value, wallet, prices, rule).Err?
    ensures Loader.LoadLedger(ledger).Err? ==> r == Err(LedgerUnreadable(Loader.LoadLedger(ledger).error))
    ensures Loader.LoadLedger(ledger).Ok? ==> r == ReportOf(Loader.LoadLedger(ledger).value, wallet, prices, rule)
  {
    match Loader.LoadLedger(ledger)
    case Err(e) => Err(LedgerUnreadable(e))
    case Ok(txs) => ReportOf(txs, wallet, prices, rule)
  }

  // ---------------------------------------------------------------------------
  // Properties

  /** Net profit is the sum of the listed assets' profits. */
  lemma {:induction false} NetIsSumOfProfits(rows: seq<AssetRow>)
    requires forall i | 0 <= i < |rows| :: rows[i].pl == rows[i].value - rows[i].costBasis
    ensures SumOf(rows, ValueOf) - SumOf(rows, CostOf) == SumOf(rows, PlOf)
    decreases |rows|
  {
    if |rows| > 0 {
      NetIsSumOfProfits(rows[..|rows| - 1]);
    }
  }

  /** The DCA projection appears exactly when BTC is held and priced above zero. */
  lemma DcaWhenBtcPriced(txs: seq<Transaction>, wallet: Option<seq<seq<string>>>, prices: map<string, real>, rule: ReductionRule)
    requires ReportOf(txs, wallet, prices, rule).Ok?
    ensures var r, book := ReportOf(txs, wallet, prices, rule).value, Analyze(txs);
            r.dcaAnalysis.Some? <==> "BTC" in HeldAssets(book) && "BTC" in prices && prices["BTC"] > 0.0
    ensures var r, btc := ReportOf(txs, wallet, prices, rule).value, Get(Analyze(txs), "BTC");
            r.dcaAnalysis.Some? ==>
              && r.dcaAnalysis.value.totalCost == btc.buyCost
              && r.dcaAnalysis.value.totalBought == btc.buyAmt
              && r.dcaAnalysis.value.marketPrice == prices["BTC"]
              && |r.dcaPlot| == |DefaultInvestments| + 1
  {
  }

  /** With the zero-average guard the report never fails once the ledger has loaded. */
  lemma GuardedReportSucceeds(txs: seq<Transaction>, wallet: Option<seq<seq<string>>>, prices: map<string, real>)
    ensures ReportOf(txs, wallet, prices, GuardZeroAverage).Ok?
  {
    var book := Analyze(txs);
    var price := BtcPrice(book, prices);
    var btc := Get(book, "BTC");
    if price > 0.0 {
      BuyTotalsNonNegative(txs, "BTC");
      DefaultInvestmentsPositive();
      GuardedNeverFails(btc.buyCost, btc.buyAmt, price, DefaultInvestments);
    }
    assert DcaStep(btc, price, GuardZeroAverage).Ok?;
  }

  /** With the zero-average guard, the only failure left is a ledger that does not load. */
  lemma GuardedGenerateReport(ledger: seq<seq<string>>, wallet: Option<seq<seq<string>>>, prices: map<string, real>)
    ensures GenerateReport(ledger, wallet, prices, GuardZeroAverage).Err? <==> Loader.LoadLedger(ledger).Err?
  {
    if Loader.LoadLedger(ledger).Ok? {
      GuardedReportSucceeds(Loader.LoadLedger(ledger).value, wallet, prices);
    }
  }

  /**
   * As written, the report raises on a priced BTC holding that was never
   * bought (only deposited or earned): its average price is zero and the
   * reduction percentage divides by it.
   */
  lemma UnboughtBtcFailsAsWritten(txs: seq<Transaction>, wallet: Option<seq<seq<string>>>, prices: map<string, real>)
    requires "BTC" in HeldAssets(Analyze(txs))
    requires Get(Analyze(txs), "BTC").buyAmt == 0.0
    requires "BTC" in prices && prices["BTC"] > 0.0
    ensures ReportOf(txs, wallet, prices, DivideAlways) == Err(DcaFailed(AverageIsZero))
    ensures ReportOf(txs, wallet, prices, GuardZeroAverage).Ok?
  {
    var book := Analyze(txs);
    var btc := Get(book, "BTC");
    var price := BtcPrice(book, prices);
    assert price == prices["BTC"];
    DefaultInvestmentsPositive();
    ZeroAverageFailsAsWritten(btc.buyCost, price, DefaultInvestments);
    assert DcaStep(btc, price, DivideAlways) == Err(DcaFailed(AverageIsZero));
    GuardedReportSucceeds(txs, wallet, prices);
  }

  /** Analysing a single row that is not a trade leg books its amount and no buy. */
  lemma SingleRowAnalysis(t: Transaction)
    requires t.asset in TrackedAssets && t.kind != "trade"
    ensures Get(Analyze([t]), t.asset).amount == t.amount
    ensures Get(Analyze([t]), t.asset).buyAmt == 0.0
    ensures t.asset in Analyze([t])
  {
    var txs := [t];
    assert txs[..|txs| - 1] == [];
    assert t.asset !in FiatAssets;
    var holdings := Holdings(txs);
    assert holdings == ApplyRow(Holdings([]), t);
    assert Refids(txs) == [t.refid];
    assert Refids(txs)[..0] == [];
    assert GroupBuy(Group(txs, t.refid)) == None by {
      assert forall x | x in Group(txs, t.refid) :: x == t;
    }
    assert Analyze(txs) == Credit(ApplyBuys(holdings, ContributionOf(txs), []), Contribution(txs, t.refid));
    HoldingsBuyZero(txs, t.asset);
  }

  /** A single BTC deposit with a positive price: one concrete ledger that makes the report raise. */
  lemma SingleDepositFailsAsWritten(t: Transaction, price: real)
    requires t.asset == "BTC" && t.kind == "deposit" && t.amount > 0.0 && price > 0.0
    ensures ReportOf([t], None, map["BTC" := price], DivideAlways) == Err(DcaFailed(AverageIsZero))
  {
    assert "BTC" in TrackedAssets && "BTC" !in FiatAssets;
    SingleRowAnalysis(t);
    UnboughtBtcFailsAsWritten([t], None, map["BTC" := price]);
  }

  /** End to end, as written: a loadable ledger whose BTC was never bought but is priced makes the report raise. */
  lemma UnboughtBtcReportFailsAsWritten(ledger: seq<seq<string>>, wallet: Option<seq<seq<string>>>, prices: map<string, real>)
    requires Loader.LoadLedger(ledger).Ok?
    requires "BTC" in HeldAssets(Analyze(Loader.LoadLedger(ledger).value))
    requires Get(Analyze(Loader.LoadLedger(ledger).value), "BTC").buyAmt == 0.0
    requires "BTC" in prices && prices["BTC"] > 0.0
    ensures GenerateReport(ledger, wallet, prices, DivideAlways) == Err(DcaFailed(AverageIsZero))
    ensures GenerateReport(ledger, wallet, prices, GuardZeroAverage).Ok?
  {
    UnboughtBtcFailsAsWritten(Loader.LoadLedger(ledger).value, wallet, prices);
  }
}
