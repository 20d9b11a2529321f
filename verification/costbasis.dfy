/**
 * The second pass of `analyze_portfolio`: rows are grouped by `refid`, and a
 * group is a buy when it holds a positive `trade` leg of a tracked asset and a
 * negative fiat leg. The last leg of each kind is taken, and the buy adds the
 * fiat leg's magnitude to the asset's `buy_cost` and the crypto leg's amount to
 * its `buy_amt`. Groups are visited in order of first appearance, but the result
 * does not depend on that order.
 */
module CostBasis {
  import opened Wrappers
  import opened Ledger
  import opened Seqs
  import opened Portfolio

  /** A leg that can be the bought side of a buy: a positive `trade` row of a tracked asset. */
  predicate IsCryptoLeg(t: Transaction)
  {
    t.asset in TrackedAssets && t.amount > 0.0 && t.kind == "trade"
  }

  /** A leg that can be the paid side of a buy: a negative fiat row. */
  predicate IsFiatLeg(t: Transaction)
  {
    t.asset in FiatAssets && t.amount < 0.0
  }

  /** The last row of the group satisfying `p`: the loop keeps overwriting its pick. */
  function LastLeg(group: seq<Transaction>, p: Transaction -> bool): (r: Option<Transaction>)
    ensures r.None? <==> forall t | t in group :: !p(t)
    ensures r.Some? ==> r.value in group && p(r.value)
    ensures r.Some? ==> exists i | 0 <= i < |group| :: group[i] == r.value && forall k | i < k < |group| :: !p(group[k])
  {
    var legs := Filter(group, p);
    if |legs| == 0 then
      assert forall t | t in group :: !p(t) by {
        forall t | t in group ensures !p(t) {
          assert t !in legs;
        }
      }
      None
    else
      assert legs[|legs| - 1] in legs;
      FilterLastExists(group, p);
      Some(legs[|legs| - 1])
  }

  /** What a buy group adds to its asset. */
  datatype Buy = Buy(asset: string, cost: real, qty: real)

  /** What every buy satisfies: a tracked asset, a positive cost and a positive quantity. */
  predicate IsBuy(b: Buy)
  {
    b.asset in TrackedAssets && b.cost > 0.0 && b.qty > 0.0
  }

  /** The buy a group describes, if it describes one. */
  function GroupBuy(group: seq<Transaction>): (b: Option<Buy>)
    ensures b.Some? <==> (exists t | t in group :: IsCryptoLeg(t)) && (exists t | t in group :: IsFiatLeg(t))
    ensures b.Some? ==> IsBuy(b.value)
    ensures b.Some? ==> exists i | 0 <= i < |group| ::
              && IsCryptoLeg(group[i]) && (forall k | i < k < |group| :: !IsCryptoLeg(group[k]))
              && b.value.asset == group[i].asset && b.value.qty == group[i].amount
    ensures b.Some? ==> exists j | 0 <= j < |group| ::
              && IsFiatLeg(group[j]) && (forall k | j < k < |group| :: !IsFiatLeg(group[k]))
              && b.value.cost == -group[j].amount
  {
    match (LastLeg(group, IsCryptoLeg), LastLeg(group, IsFiatLeg))
    case (Some(crypto), Some(fiat)) => Some(Buy(crypto.asset, Abs(fiat.amount), crypto.amount))
    case _ => None
  }

  /** The rows sharing `refid`, in ledger order. */
  function Group(txs: seq<Transaction>, refid: string): (g: seq<Transaction>)
    ensures forall t :: t in g <==> t in txs && t.refid == refid
  {
    Filter(txs, (t: Transaction) => t.refid == refid)
  }

  predicate Distinct(rs: seq<string>)
  {
    forall i, j | 0 <= i < j < |rs| :: rs[i] != rs[j]
  }

  /** The keys of `tx_by_refid`: every refid once, in order of first appearance. */
  function Refids(txs: seq<Transaction>): (rs: seq<string>)
    ensures Distinct(rs)
    ensures forall r :: r in rs <==> exists t | t in txs :: t.refid == r
  {
    if |txs| == 0 then []
    else
      var init := Refids(txs[..|txs| - 1]);
      var last := txs[|txs| - 1];
      assert forall t | t in txs :: t in txs[..|txs| - 1] || t == last;
      if last.refid in init then init else init + [last.refid]
  }

  /** What the group of `refid` contributes. */
  function Contribution(txs: seq<Transaction>, refid: string): Option<Buy>
  {
    GroupBuy(Group(txs, refid))
  }

  /** Adds one group's buy to its asset's accumulators. */
  function Credit(book: Book, b: Option<Buy>): (r: Book)
    ensures b.None? ==> r == book
    ensures b.Some? ==>
              && (forall a | a != b.value.asset :: Get(r, a) == Get(book, a))
              && Get(r, b.value.asset) == Get(book, b.value.asset).(
                   buyCost := Get(book, b.value.asset).buyCost + b.value.cost,
                   buyAmt := Get(book, b.value.asset).buyAmt + b.value.qty)
  {
    match b
    case None => book
    case Some(buy) =>
      var s := Get(book, buy.asset);
      book[buy.asset := s.(buyCost := s.buyCost + buy.cost, buyAmt := s.buyAmt + buy.qty)]
  }

  /** Every group's contribution, as a function of its refid. */
  function ContributionOf(txs: seq<Transaction>): string -> Option<Buy>
  {
    r => Contribution(txs, r)
  }

  /** Everything but the buy accumulators is as in `before`. */
  predicate OnlyBuysDiffer(before: AssetState, after: AssetState)
  {
    after == before.(buyCost := after.buyCost, buyAmt := after.buyAmt)
  }

  /**
   * The second loop over the groups named by `refids`, each contributing
   * `contribution(refid)`.
   */
  function ApplyBuys(book: Book, contribution: string -> Option<Buy>, refids: seq<string>): Book
  {
    if |refids| == 0 then book
    else Credit(ApplyBuys(book, contribution, refids[..|refids| - 1]), contribution(refids[|refids| - 1]))
  }

  /**
   * The second pass on top of `book`: only buy accumulators change, none
   * decreases, and an untracked asset is left alone.
   */
  function CostBases(book: Book, txs: seq<Transaction>): (r: Book)
    ensures forall a :: OnlyBuysDiffer(Get(book, a), Get(r, a))
    ensures forall a :: Get(r, a).buyCost >= Get(book, a).buyCost && Get(r, a).buyAmt >= Get(book, a).buyAmt
    ensures forall a | a !in TrackedAssets :: Get(r, a) == Get(book, a)
  {
    var refids := Refids(txs);
    forall a ensures Get(ApplyBuys(book, ContributionOf(txs), refids), a).buyCost >= Get(book, a).buyCost
                  && Get(ApplyBuys(book, ContributionOf(txs), refids), a).buyAmt >= Get(book, a).buyAmt
                  && OnlyBuysDiffer(Get(book, a), Get(ApplyBuys(book, ContributionOf(txs), refids), a))
                  && (a !in TrackedAssets ==> Get(ApplyBuys(book, ContributionOf(txs), refids), a) == Get(book, a)) {
      ApplyBuysOnlyRaises(book, ContributionOf(txs), refids, a);
    }
    ApplyBuys(book, ContributionOf(txs), refids)
  }

  /**
   * `analyze_portfolio`: both passes. Every accumulator but the buy ones is
   * what the first pass booked, and the buy ones are non-negative.
   */
  function Analyze(txs: seq<Transaction>): (r: Book)
    ensures forall a :: OnlyBuysDiffer(Get(Holdings(txs), a), Get(r, a))
    ensures forall a :: Get(r, a).buyCost >= 0.0 && Get(r, a).buyAmt >= 0.0
    ensures forall a | a !in TrackedAssets :: Get(r, a) == Get(Holdings(txs), a)
  {
    forall a ensures Get(Holdings(txs), a).buyCost == 0.0 && Get(Holdings(txs), a).buyAmt == 0.0 {
      HoldingsBuyZero(txs, a);
    }
    CostBases(Holdings(txs), txs)
  }

  // ---------------------------------------------------------------------------
  // The picks

  /** The pick is the last qualifying leg: no later leg of the group qualifies. */
  lemma LastLegIsLast(group: seq<Transaction>, p: Transaction -> bool) returns (i: nat)
    requires LastLeg(group, p).Some?
    ensures i < |group| && group[i] == LastLeg(group, p).value
    ensures forall j | i < j < |group| :: !p(group[j])
  {
    i := FilterLastIndex(group, p);
  }

  /** A group of one fiat spend and one crypto trade is a buy of that crypto at the spent amount. */
  lemma SimpleBuy(spend: Transaction, bought: Transaction)
    requires IsFiatLeg(spend) && IsCryptoLeg(bought)
    ensures GroupBuy([spend, bought]) == Some(Buy(bought.asset, -spend.amount, bought.amount))
    ensures GroupBuy([bought, spend]) == Some(Buy(bought.asset, -spend.amount, bought.amount))
  {
    FiatIsNotTracked(spend.asset);
    assert !IsCryptoLeg(spend) && !IsFiatLeg(bought);
    FilterPair(spend, bought, IsCryptoLeg);
    FilterPair(spend, bought, IsFiatLeg);
    FilterPair(bought, spend, IsCryptoLeg);
    FilterPair(bought, spend, IsFiatLeg);
  }

  /** With several fiat legs, the buy's cost is the last one's magnitude, not their total. */
  lemma LastSpendIsTheCost(first: Transaction, second: Transaction, bought: Transaction)
    requires IsFiatLeg(first) && IsFiatLeg(second) && IsCryptoLeg(bought)
    ensures GroupBuy([first, second, bought]) == Some(Buy(bought.asset, -second.amount, bought.amount))
  {
    FiatIsNotTracked(first.asset);
    FiatIsNotTracked(second.asset);
    var group := [first, second, bought];
    assert forall k | 0 <= k < 2 :: !IsCryptoLeg(group[k]);
    assert !IsFiatLeg(bought);
  }

  // ---------------------------------------------------------------------------
  // Accumulation

  /** The second pass only raises the buy accumulators of tracked assets and touches nothing else. */
  lemma {:induction false} ApplyBuysOnlyRaises(book: Book, contribution: string -> Option<Buy>, refids: seq<string>, a: string)
    requires forall r | r in refids :: contribution(r).Some? ==> IsBuy(contribution(r).value)
    ensures var before, after := Get(book, a), Get(ApplyBuys(book, contribution, refids), a);
            && after.buyCost >= before.buyCost && after.buyAmt >= before.buyAmt
            && after == before.(buyCost := after.buyCost, buyAmt := after.buyAmt)
            && (a !in TrackedAssets ==> after == before)
    decreases |refids|
  {
    if |refids| > 0 {
      ApplyBuysOnlyRaises(book, contribution, refids[..|refids| - 1], a);
    }
  }

  /** An asset that no visited group buys keeps its state. */
  lemma {:induction false} ApplyBuysUnbought(book: Book, contribution: string -> Option<Buy>, refids: seq<string>, a: string)
    requires forall x | x in refids :: contribution(x).None? || contribution(x).value.asset != a
    ensures Get(ApplyBuys(book, contribution, refids), a) == Get(book, a)
    decreases |refids|
  {
    if |refids| > 0 {
      var init := refids[..|refids| - 1];
      assert forall x | x in init :: x in refids;
      ApplyBuysUnbought(book, contribution, init, a);
    }
  }

  /** The buy accumulators the second pass produces are non-negative. */
  lemma BuyTotalsNonNegative(txs: seq<Transaction>, a: string)
    ensures Get(Analyze(txs), a).buyCost >= 0.0 && Get(Analyze(txs), a).buyAmt >= 0.0
  {
    HoldingsBuyZero(txs, a);
    ApplyBuysOnlyRaises(Holdings(txs), ContributionOf(txs), Refids(txs), a);
  }

  lemma {:induction false} HoldingsBuyZero(txs: seq<Transaction>, a: string)
    ensures Get(Holdings(txs), a).buyCost == 0.0 && Get(Holdings(txs), a).buyAmt == 0.0
    decreases |txs|
  {
    if |txs| > 0 {
      HoldingsBuyZero(txs[..|txs| - 1], a);
    }
  }

  /** The cost a contribution adds to asset `a`. */
  function CostFor(b: Option<Buy>, a: string): real
  {
    if b.Some? && b.value.asset == a then b.value.cost else 0.0
  }

  /** The quantity a contribution adds to asset `a`. */
  function QtyFor(b: Option<Buy>, a: string): real
  {
    if b.Some? && b.value.asset == a then b.value.qty else 0.0
  }

  /** Each listed group is counted once: the accumulators grow by the sum of the groups' buys. */
  lemma {:induction false} ApplyBuysIsSum(book: Book, contribution: string -> Option<Buy>, refids: seq<string>, a: string)
    ensures Get(ApplyBuys(book, contribution, refids), a).buyCost
         == Get(book, a).buyCost + SumOf(refids, r => CostFor(contribution(r), a))
    ensures Get(ApplyBuys(book, contribution, refids), a).buyAmt
         == Get(book, a).buyAmt + SumOf(refids, r => QtyFor(contribution(r), a))
    decreases |refids|
  {
    if |refids| > 0 {
      ApplyBuysIsSum(book, contribution, refids[..|refids| - 1], a);
    }
  }

  // ---------------------------------------------------------------------------
  // Order independence

  lemma CreditCommutes(book: Book, x: Option<Buy>, y: Option<Buy>)
    ensures Credit(Credit(book, x), y) == Credit(Credit(book, y), x)
  {
    if x.Some? && y.Some? {
      var a, b := x.value.asset, y.value.asset;
      if a != b {
        var sa, sb := Get(book, a), Get(book, b);
        var va := sa.(buyCost := sa.buyCost + x.value.cost, buyAmt := sa.buyAmt + x.value.qty);
        var vb := sb.(buyCost := sb.buyCost + y.value.cost, buyAmt := sb.buyAmt + y.value.qty);
        assert Credit(Credit(book, x), y) == book[a := va][b := vb];
        assert Credit(Credit(book, y), x) == book[b := vb][a := va];
      }
    }
  }

  /** Visiting one group last instead of in its place does not change the result. */
  lemma {:induction false} MoveToEnd(book: Book, contribution: string -> Option<Buy>, front: seq<string>, r: string, back: seq<string>)
    ensures ApplyBuys(book, contribution, front + [r] + back)
         == Credit(ApplyBuys(book, contribution, front + back), contribution(r))
    decreases |back|
  {
    if |back| == 0 {
      assert (front + [r] + back)[..|front|] == front;
      assert front + back == front;
    } else {
      var init := back[..|back| - 1];
      var last := back[|back| - 1];
      assert (front + [r] + back)[..|front + [r] + back| - 1] == front + [r] + init;
      assert (front + back)[..|front + back| - 1] == front + init;
      MoveToEnd(book, contribution, front, r, init);
      CreditCommutes(ApplyBuys(book, contribution, front + init), contribution(r), contribution(last));
    }
  }

  lemma FirstIsMember(s: seq<string>)
    ensures |s| > 0 ==> s[0] in s
  {
  }

  /** Taking the last of `xs` out of both lists keeps them distinct and with equal members. */
  lemma RemoveMatching(xs: seq<string>, ys: seq<string>, j: nat)
    requires Distinct(xs) && Distinct(ys)
    requires forall r :: r in xs <==> r in ys
    requires |xs| > 0 && j < |ys| && ys[j] == xs[|xs| - 1]
    ensures var init, rest := xs[..|xs| - 1], ys[..j] + ys[j + 1..];
            Distinct(rest) && forall x :: x in init <==> x in rest
  {
    var init, r, rest := xs[..|xs| - 1], xs[|xs| - 1], ys[..j] + ys[j + 1..];
    forall x ensures x in init <==> x in rest {
      if x in init {
        var i :| 0 <= i < |init| && init[i] == x;
        assert xs[i] == x && i < |xs| - 1;
        assert x in ys;
        var k :| 0 <= k < |ys| && ys[k] == x;
        assert k != j;
        if k < j {
          assert rest[k] == x;
        } else {
          assert rest[k - 1] == x;
        }
      }
      if x in rest {
        var k :| 0 <= k < |rest| && rest[k] == x;
        var k' := if k < j then k else k + 1;
        assert ys[k'] == x && k' != j;
        assert x in xs;
        var i :| 0 <= i < |xs| && xs[i] == x;
        assert i != |xs| - 1;
        assert init[i] == x;
      }
    }
    forall p, q | 0 <= p < q < |rest| ensures rest[p] != rest[q] {
      var p', q' := if p < j then p else p + 1, if q < j then q else q + 1;
      assert rest[p] == ys[p'] && rest[q] == ys[q'] && p' < q';
    }
  }

  /** Any two orders of the same distinct groups give the same accumulators. */
  lemma {:induction false} OrderIndependent(book: Book, contribution: string -> Option<Buy>, xs: seq<string>, ys: seq<string>)
    requires Distinct(xs) && Distinct(ys)
    requires forall r :: r in xs <==> r in ys
    ensures ApplyBuys(book, contribution, xs) == ApplyBuys(book, contribution, ys)
    decreases |xs|
  {
    if |xs| > 0 {
      var init, r := xs[..|xs| - 1], xs[|xs| - 1];
      assert r in ys;
      var j :| 0 <= j < |ys| && ys[j] == r;
      var front, back := ys[..j], ys[j + 1..];
      assert ys == front + [r] + back;
      var rest := front + back;
      RemoveMatching(xs, ys, j);
      OrderIndependent(book, contribution, init, rest);
      MoveToEnd(book, contribution, front, r, back);
      assert ApplyBuys(book, contribution, xs) == Credit(ApplyBuys(book, contribution, init), contribution(r));
    } else {
      FirstIsMember(ys);
    }
  }

  lemma {:induction false} SameContributions(book: Book, f: string -> Option<Buy>, g: string -> Option<Buy>, refids: seq<string>)
    requires forall r | r in refids :: f(r) == g(r)
    ensures ApplyBuys(book, f, refids) == ApplyBuys(book, g, refids)
    decreases |refids|
  {
    if |refids| > 0 {
      SameContributions(book, f, g, refids[..|refids| - 1]);
    }
  }

  // ---------------------------------------------------------------------------
  // Rows that cannot be a leg

  /** Rows sharing a refid: filtering a concatenation filters each part. */
  lemma GroupAppend(a: seq<Transaction>, b: seq<Transaction>, refid: string)
    ensures Group(a + b, refid) == Group(a, refid) + Group(b, refid)
  {
    FilterAppend(a, b, (t: Transaction) => t.refid == refid);
  }

  /** A row that is neither kind of leg changes no group's buy. */
  lemma NonLegChangesNoBuy(before: seq<Transaction>, x: Transaction, after: seq<Transaction>, refid: string)
    requires !IsCryptoLeg(x) && !IsFiatLeg(x)
    ensures Contribution(before + [x] + after, refid) == Contribution(before + after, refid)
  {
    if x.refid != refid {
      FilterDrop(before, x, after, (t: Transaction) => t.refid == refid);
    } else {
      var gb, ga := Group(before, refid), Group(after, refid);
      GroupAppend(before + [x], after, refid);
      GroupAppend(before, [x], refid);
      GroupAppend(before, after, refid);
      assert Group([x], refid) == [x] by {
        assert [x][..0] == [];
      }
      FilterDrop(gb, x, ga, IsCryptoLeg);
      FilterDrop(gb, x, ga, IsFiatLeg);
    }
  }

  /**
   * Adding or removing a negative row of a non-fiat asset anywhere in the ledger
   * leaves the second pass unchanged.
   */
  lemma NegativeCryptoRowIrrelevant(book: Book, before: seq<Transaction>, x: Transaction, after: seq<Transaction>)
    requires x.amount < 0.0 && x.asset !in FiatAssets
    ensures CostBases(book, before + [x] + after) == CostBases(book, before + after)
  {
    NonLegIrrelevant(book, before, x, after);
  }

  /** The groups' loop, with and without a row that is neither kind of leg. */
  lemma NonLegIrrelevant(book: Book, before: seq<Transaction>, x: Transaction, after: seq<Transaction>)
    requires !IsCryptoLeg(x) && !IsFiatLeg(x)
    ensures var full, rest := before + [x] + after, before + after;
            ApplyBuys(book, ContributionOf(full), Refids(full)) == ApplyBuys(book, ContributionOf(rest), Refids(rest))
  {
    var full, rest := before + [x] + after, before + after;
    var f, g := ContributionOf(full), ContributionOf(rest);
    forall r ensures f(r) == g(r) {
      NonLegChangesNoBuy(before, x, after, r);
    }
    var xs, ys := Refids(full), Refids(rest);
    RefidsWithRow(before, x, after);
    if x.refid in ys {
      OrderIndependent(book, f, xs, ys);
    } else {
      var zs := ys + [x.refid];
      assert forall r :: r in xs <==> r in zs;
      OrderIndependent(book, f, xs, zs);
      assert zs[..|zs| - 1] == ys;
      assert g(x.refid) == None;
    }
    SameContributions(book, f, g, ys);
  }

  /** A row adds at most its own refid to the groups. */
  lemma RefidsWithRow(before: seq<Transaction>, x: Transaction, after: seq<Transaction>)
    ensures forall r :: r in Refids(before + [x] + after) <==> r in Refids(before + after) || r == x.refid
  {
    var full, rest := before + [x] + after, before + after;
    assert forall t | t in rest :: t in full;
    assert x in full;
    forall r | r in Refids(full) ensures r in Refids(rest) || r == x.refid {
      var t :| t in full && t.refid == r;
      if t != x {
        assert t in rest;
      }
    }
  }

  /** The second pass's accumulators depend only on the buy accumulators it starts from. */
  lemma BuysIgnoreOtherFields(b1: Book, b2: Book, contribution: string -> Option<Buy>, refids: seq<string>, a: string)
    requires Get(b1, a).buyCost == Get(b2, a).buyCost && Get(b1, a).buyAmt == Get(b2, a).buyAmt
    ensures Get(ApplyBuys(b1, contribution, refids), a).buyCost == Get(ApplyBuys(b2, contribution, refids), a).buyCost
    ensures Get(ApplyBuys(b1, contribution, refids), a).buyAmt == Get(ApplyBuys(b2, contribution, refids), a).buyAmt
  {
    ApplyBuysIsSum(b1, contribution, refids, a);
    ApplyBuysIsSum(b2, contribution, refids, a);
  }

  /** For the whole analysis: such a row leaves every asset's `buy_cost` and `buy_amt` unchanged. */
  lemma NegativeCryptoRowKeepsCostBasis(before: seq<Transaction>, x: Transaction, after: seq<Transaction>, a: string)
    requires x.amount < 0.0 && x.asset !in FiatAssets
    ensures Get(Analyze(before + [x] + after), a).buyCost == Get(Analyze(before + after), a).buyCost
    ensures Get(Analyze(before + [x] + after), a).buyAmt == Get(Analyze(before + after), a).buyAmt
  {
    var full, rest := before + [x] + after, before + after;
    NegativeCryptoRowIrrelevant(Holdings(full), before, x, after);
    HoldingsBuyZero(full, a);
    HoldingsBuyZero(rest, a);
    BuysIgnoreOtherFields(Holdings(full), Holdings(rest), ContributionOf(rest), Refids(rest), a);
  }
}
