/**
 * The first pass of `analyze_portfolio`: every ledger row is folded into
 * per-asset accumulators. Fiat rows only move the `EUR` bucket's amount, dust
 * rows of untracked assets are ignored, and every other row adds its amount and
 * fee to its asset, its amount to the rewards of `earn`/`reward` rows and its
 * magnitude to the withdrawn total of `withdrawal` rows.
 */
module Portfolio {
  import opened Ledger
  import opened Seqs

  /** Below this amount a row of an untracked asset counts as dust. */
  const DustLimit: real := 0.0000001

  /** The accumulators `analyze_portfolio` keeps per asset. */
  datatype AssetState = AssetState(
    amount: real,
    feesPaid: real,
    rewards: real,
    buyCost: real,
    buyAmt: real,
    withdrawn: real)

  /** The value `collections.defaultdict` supplies for an asset not seen yet. */
  const Zero: AssetState := AssetState(0.0, 0.0, 0.0, 0.0, 0.0, 0.0)

  type Book = map<string, AssetState>

  /** `portfolio[asset]` on the default dictionary. */
  function Get(book: Book, asset: string): AssetState
  {
    if asset in book then book[asset] else Zero
  }

  predicate IsFiatRow(t: Transaction) { t.asset in FiatAssets }

  /**
   * The skip rule as written: an untracked asset's row is ignored whenever its
   * amount is below the dust limit, which includes every negative amount.
   */
  predicate IsDust(t: Transaction)
  {
    t.asset !in FiatAssets && t.asset !in TrackedAssets && t.amount < DustLimit
  }

  predicate IsRewardKind(kind: string) { kind == "earn" || kind == "reward" }

  predicate IsWithdrawalKind(kind: string) { kind == "withdrawal" }

  /** One iteration of the first loop. */
  function ApplyRow(book: Book, t: Transaction): (r: Book)
    ensures IsFiatRow(t) ==>
              && (forall a | a != FiatBucket :: Get(r, a) == Get(book, a))
              && Get(r, FiatBucket) == Get(book, FiatBucket).(amount := Get(book, FiatBucket).amount + t.amount)
    ensures IsDust(t) ==> r == book
    ensures !IsFiatRow(t) && !IsDust(t) ==>
              && (forall a | a != t.asset :: Get(r, a) == Get(book, a))
              && var old_, new_ := Get(book, t.asset), Get(r, t.asset);
                 && new_.amount == old_.amount + t.amount
                 && new_.feesPaid == old_.feesPaid + t.fee
                 && new_.rewards == old_.rewards + (if IsRewardKind(t.kind) then t.amount else 0.0)
                 && new_.withdrawn == old_.withdrawn + (if IsWithdrawalKind(t.kind) then Abs(t.amount) else 0.0)
                 && new_.buyCost == old_.buyCost && new_.buyAmt == old_.buyAmt
  {
    if IsFiatRow(t) then
      var s := Get(book, FiatBucket);
      book[FiatBucket := s.(amount := s.amount + t.amount)]
    else if IsDust(t) then
      book
    else
      var s := Get(book, t.asset);
      var s1 := s.(amount := s.amount + t.amount, feesPaid := s.feesPaid + t.fee);
      var s2 := if IsRewardKind(t.kind) then s1.(rewards := s1.rewards + t.amount) else s1;
      var s3 := if IsWithdrawalKind(t.kind) then s2.(withdrawn := s2.withdrawn + Abs(t.amount)) else s2;
      book[t.asset := s3]
  }

  /** The first pass over the whole ledger, in ledger order. */
  function Holdings(txs: seq<Transaction>): Book
  {
    if |txs| == 0 then map[] else ApplyRow(Holdings(txs[..|txs| - 1]), txs[|txs| - 1])
  }

  /** The first pass books only the fiat bucket and the assets of rows it does not skip. */
  lemma {:induction false} HoldingsDomain(txs: seq<Transaction>, a: string)
    requires a in Holdings(txs)
    ensures a == FiatBucket || Booked(txs, a)
    decreases |txs|
  {
    var init, last := txs[..|txs| - 1], txs[|txs| - 1];
    if a in Holdings(init) {
      HoldingsDomain(init, a);
      if Booked(init, a) {
        var t :| t in init && t.asset == a && !IsFiatRow(t) && !IsDust(t);
        assert t in txs;
      }
    } else {
      assert last in txs;
    }
  }

  /** Some row of the ledger is booked on `a` by the first pass. */
  predicate Booked(txs: seq<Transaction>, a: string)
  {
    exists t | t in txs :: t.asset == a && !IsFiatRow(t) && !IsDust(t)
  }

  /** The rows the first pass books on the non-fiat `asset`. */
  function Counted(txs: seq<Transaction>, asset: string): seq<Transaction>
  {
    Filter(txs, (t: Transaction) => t.asset == asset && !IsFiatRow(t) && !IsDust(t))
  }

  function AmountOf(t: Transaction): real { t.amount }

  function FeeOf(t: Transaction): real { t.fee }

  /** What a row adds to the rewards accumulator. */
  function RewardOf(t: Transaction): real { if IsRewardKind(t.kind) then t.amount else 0.0 }

  /** What a row adds to the withdrawn accumulator. */
  function WithdrawnOf(t: Transaction): real { if IsWithdrawalKind(t.kind) then Abs(t.amount) else 0.0 }

  function FiatRows(txs: seq<Transaction>): seq<Transaction>
  {
    Filter(txs, IsFiatRow)
  }

  /**
   * Each non-fiat asset's accumulators are plain sums over the rows booked on it:
   * amounts, fees, the amounts of reward rows and the magnitudes of withdrawals.
   * The first pass leaves the buy accumulators at zero.
   */
  lemma {:induction false} HoldingsAreTotals(txs: seq<Transaction>, asset: string)
    requires asset !in FiatAssets
    ensures var rows := Counted(txs, asset);
            Get(Holdings(txs), asset) == AssetState(
              amount := SumOf(rows, AmountOf),
              feesPaid := SumOf(rows, FeeOf),
              rewards := SumOf(rows, RewardOf),
              buyCost := 0.0,
              buyAmt := 0.0,
              withdrawn := SumOf(rows, WithdrawnOf))
    decreases |txs|
  {
    if |txs| > 0 {
      var init, last := txs[..|txs| - 1], txs[|txs| - 1];
      HoldingsAreTotals(init, asset);
      var rows := Counted(init, asset);
      assert Holdings(txs) == ApplyRow(Holdings(init), last);
      ApplyRowOn(Holdings(init), last, asset);
      if last.asset == asset && !IsFiatRow(last) && !IsDust(last) {
        assert Counted(txs, asset) == rows + [last];
        SumsStep(rows, last);
      } else {
        assert Counted(txs, asset) == rows;
      }
    }
  }

  /** What one row does to the accumulators of a non-fiat asset. */
  lemma ApplyRowOn(book: Book, t: Transaction, asset: string)
    requires asset !in FiatAssets
    ensures var s := Get(book, asset);
            Get(ApplyRow(book, t), asset)
            == if t.asset == asset && !IsFiatRow(t) && !IsDust(t)
               then s.(amount := s.amount + t.amount, feesPaid := s.feesPaid + t.fee,
                       rewards := s.rewards + RewardOf(t), withdrawn := s.withdrawn + WithdrawnOf(t))
               else s
  {
  }

  lemma SumsStep(rows: seq<Transaction>, last: Transaction)
    ensures SumOf(rows + [last], AmountOf) == SumOf(rows, AmountOf) + last.amount
    ensures SumOf(rows + [last], FeeOf) == SumOf(rows, FeeOf) + last.fee
    ensures SumOf(rows + [last], RewardOf) == SumOf(rows, RewardOf) + RewardOf(last)
    ensures SumOf(rows + [last], WithdrawnOf) == SumOf(rows, WithdrawnOf) + WithdrawnOf(last)
  {
    assert (rows + [last])[..|rows|] == rows;
  }

  /** The `EUR` bucket's amount is the net of every fiat row; its other accumulators stay zero. */
  lemma {:induction false} FiatBucketIsNetFlow(txs: seq<Transaction>)
    ensures Get(Holdings(txs), FiatBucket) == Zero.(amount := SumOf(FiatRows(txs), AmountOf))
    decreases |txs|
  {
    if |txs| > 0 {
      var init, last := txs[..|txs| - 1], txs[|txs| - 1];
      FiatBucketIsNetFlow(init);
      var rows := FiatRows(init);
      if IsFiatRow(last) {
        assert FiatRows(txs) == rows + [last];
        assert (rows + [last])[..|rows|] == rows;
      } else {
        assert FiatRows(txs) == rows;
      }
    }
  }

  /** Inserting a dust row anywhere in the ledger changes nothing in the first pass. */
  lemma {:induction false} DustIsInvisible(before: seq<Transaction>, dust: Transaction, after: seq<Transaction>)
    requires IsDust(dust)
    ensures Holdings(before + [dust] + after) == Holdings(before + after)
    decreases |after|
  {
    if |after| == 0 {
      assert (before + [dust] + after)[..|before|] == before;
      assert before + after == before;
    } else {
      var init := after[..|after| - 1];
      assert (before + [dust] + after)[..|before + [dust] + after| - 1] == before + [dust] + init;
      assert (before + after)[..|before + after| - 1] == before + init;
      DustIsInvisible(before, dust, init);
    }
  }
}
