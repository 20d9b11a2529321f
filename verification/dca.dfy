/**
 * The computation of `run_dca_scenarios`: the current average buy price, and
 * for each candidate investment the quantity it buys after the exchange fee,
 * the new average price and how far the average drops. Printing is not modelled.
 * Python raises `ZeroDivisionError` on each of the three divisions; those
 * failures are the `DcaError` cases, in the order the loop meets them.
 */
module Dca {
  import opened Wrappers

  /** The exchange fee the projection assumes: 0.26% of the investment. */
  const FeeRate: real := 0.0026

  /** The default investments, in euro. */
  const DefaultInvestments: seq<real> := [100.0, 200.0, 500.0, 1000.0, 2000.0]

  datatype Scenario = Scenario(
    investment: real,
    buyAmount: real,
    newTotal: real,
    newAverage: real,
    reductionPercent: real)

  /** The `dca_data` dictionary (the asset name and the printed text are omitted). */
  datatype DcaSummary = DcaSummary(
    totalBought: real,
    totalCost: real,
    averagePrice: real,
    marketPrice: real,
    isProfit: bool,
    scenarios: seq<Scenario>)

  /** One point of the chart: an investment and the average price after it. */
  datatype PlotPoint = PlotPoint(investment: real, averagePrice: real)

  datatype DcaError =
    | PriceIsZero         // `net_invest / current_price`
    | NewQuantityIsZero   // `new_total_cost / new_total_bought`
    | AverageIsZero       // `(avg_price - new_avg_price) / avg_price`

  /**
   * How the reduction percentage treats a zero average: `DivideAlways` divides
   * as the source does; `GuardZeroAverage` reports no reduction instead.
   */
  datatype ReductionRule = DivideAlways | GuardZeroAverage

  /** Total cost over total quantity bought, or 0 when nothing was bought. */
  function AveragePrice(cost: real, bought: real): (avg: real)
    ensures bought > 0.0 ==> avg * bought == cost
    ensures bought <= 0.0 ==> avg == 0.0
  {
    if bought > 0.0 then cost / bought else 0.0
  }

  /** One scenario of the loop. */
  function Project(cost: real, bought: real, price: real, investment: real, rule: ReductionRule): (r: Result<Scenario, DcaError>)
    ensures price == 0.0 <==> r == Err(PriceIsZero)
    ensures r == Err(NewQuantityIsZero) <==> price != 0.0 && bought + investment * (1.0 - FeeRate) / price == 0.0
    ensures r == Err(AverageIsZero) <==>
              && price != 0.0 && bought + investment * (1.0 - FeeRate) / price != 0.0
              && rule == DivideAlways && AveragePrice(cost, bought) == 0.0
    ensures r.Ok? ==>
              var s, avg := r.value, AveragePrice(cost, bought);
              && s.investment == investment
              && s.buyAmount * price == investment * (1.0 - FeeRate)
              && s.newTotal == bought + s.buyAmount
              && s.newAverage * s.newTotal == cost + investment
              && (avg != 0.0 ==> s.reductionPercent * avg == (avg - s.newAverage) * 100.0)
              && (avg == 0.0 ==> s.reductionPercent == 0.0)
  {
    var avg := AveragePrice(cost, bought);
    var fee := investment * FeeRate;
    var net := investment - fee;
    if price == 0.0 then Err(PriceIsZero)
    else
      var buyAmount := net / price;
      var newTotal := bought + buyAmount;
      if newTotal == 0.0 then Err(NewQuantityIsZero)
      else
        var newAverage := (cost + investment) / newTotal;
        if avg == 0.0 && rule == DivideAlways then Err(AverageIsZero)
        else
          var reduction := if avg == 0.0 then 0.0 else ((avg - newAverage) / avg) * 100.0;
          Ok(Scenario(investment, buyAmount, newTotal, newAverage, reduction))
  }

  /** The loop over the investments: every scenario, or the first failure. */
  function ProjectAll(cost: real, bought: real, price: real, investments: seq<real>, rule: ReductionRule): (r: Result<seq<Scenario>, DcaError>)
    ensures r.Ok? <==> forall i | 0 <= i < |investments| :: Project(cost, bought, price, investments[i], rule).Ok?
    ensures r.Ok? ==> |r.value| == |investments|
                      && forall i | 0 <= i < |investments| :: Project(cost, bought, price, investments[i], rule) == Ok(r.value[i])
    ensures r.Err? ==> exists i | 0 <= i < |investments| :: Project(cost, bought, price, investments[i], rule) == Err(r.error)
                          && forall j | 0 <= j < i :: Project(cost, bought, price, investments[j], rule).Ok?
  {
    if |investments| == 0 then Ok([])
    else
      match Project(cost, bought, price, investments[0], rule)
      case Err(e) => Err(e)
      case Ok(s) =>
        match ProjectAll(cost, bought, price, investments[1..], rule)
        case Err(e) =>
          assert forall j | 1 <= j < |investments| :: investments[j] == investments[1..][j - 1];
          Err(e)
        case Ok(rest) =>
          assert forall j | 1 <= j < |investments| :: investments[j] == investments[1..][j - 1];
          Ok([s] + rest)
  }

  /** `run_dca_scenarios`: the chart points and the summary. */
  function RunDca(cost: real, bought: real, price: real, investments: seq<real>, rule: ReductionRule)
    : (r: Result<(seq<PlotPoint>, DcaSummary), DcaError>)
    ensures r.Ok? <==> ProjectAll(cost, bought, price, investments, rule).Ok?
    ensures r.Err? ==> r.error == ProjectAll(cost, bought, price, investments, rule).error
    ensures r.Ok? ==>
              var (plot, summary) := r.value;
              && |plot| == |investments| + 1 && |summary.scenarios| == |investments|
              && plot[0] == PlotPoint(0.0, AveragePrice(cost, bought))
              && (forall i | 0 <= i < |investments| ::
                    plot[i + 1] == PlotPoint(investments[i], summary.scenarios[i].newAverage))
              && summary.averagePrice == AveragePrice(cost, bought)
              && summary.totalCost == cost && summary.totalBought == bought && summary.marketPrice == price
              && (summary.isProfit <==> price >= AveragePrice(cost, bought))
              && summary.scenarios == ProjectAll(cost, bought, price, investments, rule).value
  {
    var avg := AveragePrice(cost, bought);
    match ProjectAll(cost, bought, price, investments, rule)
    case Err(e) => Err(e)
    case Ok(scenarios) =>
      var points := seq(|scenarios|, i requires 0 <= i < |scenarios| => PlotPoint(scenarios[i].investment, scenarios[i].newAverage));
      var plot := [PlotPoint(0.0, avg)] + points;
      assert forall i | 0 <= i < |investments| :: plot[i + 1] == points[i];
      Ok((plot, DcaSummary(bought, cost, avg, price, price >= avg, scenarios)))
  }

  // ---------------------------------------------------------------------------
  // Properties of the projection

  /** The new average is the glossary's formula: total cost over total coins after the buy. */
  lemma NewAverageFormula(cost: real, bought: real, price: real, investment: real, rule: ReductionRule)
    requires Project(cost, bought, price, investment, rule).Ok?
    ensures var s := Project(cost, bought, price, investment, rule).value;
            s.newAverage == (cost + investment) / (bought + investment * (1.0 - FeeRate) / price)
  {
  }

  /** Investing nothing leaves the average where it was. */
  lemma ZeroInvestmentKeepsAverage(cost: real, bought: real, price: real, rule: ReductionRule)
    requires bought > 0.0 && price != 0.0 && (cost != 0.0 || rule == GuardZeroAverage)
    ensures Project(cost, bought, price, 0.0, rule).Ok?
    ensures Project(cost, bought, price, 0.0, rule).value.newAverage == AveragePrice(cost, bought)
  {
  }

  /** (a + c) / (b + d) lies between a / b and c / d when b and d are positive. */
  lemma Mediant(a: real, b: real, c: real, d: real)
    requires b > 0.0 && d > 0.0
    ensures a / b <= c / d ==> a / b <= (a + c) / (b + d) <= c / d
    ensures c / d <= a / b ==> c / d <= (a + c) / (b + d) <= a / b
    ensures a / b < c / d ==> a / b < (a + c) / (b + d)
    ensures c / d < a / b ==> (a + c) / (b + d) < a / b
  {
    var x, y := a / b, c / d;
    assert a == x * b && c == y * d;
    var m := (a + c) / (b + d);
    assert m * (b + d) == x * b + y * d;
    assert (m - x) * (b + d) == (y - x) * d;
    assert (m - y) * (b + d) == (x - y) * b;
    if x <= y {
      assert (y - x) * d >= 0.0 && (x - y) * b <= 0.0;
    }
    if y <= x {
      assert (x - y) * b >= 0.0 && (y - x) * d <= 0.0;
    }
    if x < y {
      assert (y - x) * d > 0.0;
    }
    if y < x {
      assert (y - x) * d < 0.0;
    }
  }

  /** The price a buy effectively pays per coin once the fee is taken. */
  function EffectivePrice(price: real): real
    requires price > 0.0
  {
    price / (1.0 - FeeRate)
  }

  /**
   * With coins already bought and a positive investment at a positive price,
   * the new average lies between the old average and the effective price.
   */
  lemma NewAverageBetween(cost: real, bought: real, price: real, investment: real, rule: ReductionRule)
    requires bought > 0.0 && price > 0.0 && investment > 0.0 && (cost != 0.0 || rule == GuardZeroAverage)
    ensures Project(cost, bought, price, investment, rule).Ok?
    ensures var m, avg, eff := Project(cost, bought, price, investment, rule).value.newAverage,
                               AveragePrice(cost, bought), EffectivePrice(price);
            (avg <= eff ==> avg <= m <= eff) && (eff <= avg ==> eff <= m <= avg)
  {
    var d := investment * (1.0 - FeeRate) / price;
    assert d > 0.0;
    assert investment / d == EffectivePrice(price) by {
      assert d * EffectivePrice(price) == investment;
    }
    Mediant(cost, bought, investment, d);
  }

  /**
   * Buying below the old average lowers it and reports a positive reduction;
   * buying at or above it does not.
   */
  lemma ReductionPositiveIffCheaper(cost: real, bought: real, price: real, investment: real, rule: ReductionRule)
    requires cost > 0.0 && bought > 0.0 && price > 0.0 && investment > 0.0
    ensures Project(cost, bought, price, investment, rule).Ok?
    ensures var s := Project(cost, bought, price, investment, rule).value;
            (s.newAverage < AveragePrice(cost, bought) <==> EffectivePrice(price) < AveragePrice(cost, bought))
            && (s.reductionPercent > 0.0 <==> EffectivePrice(price) < AveragePrice(cost, bought))
  {
    var d := investment * (1.0 - FeeRate) / price;
    assert d > 0.0;
    assert investment / d == EffectivePrice(price) by {
      assert d * EffectivePrice(price) == investment;
    }
    Mediant(cost, bought, investment, d);
    var avg := AveragePrice(cost, bought);
    assert avg > 0.0 by {
      assert avg * bought == cost;
    }
  }

  /** Every default investment is positive. */
  lemma DefaultInvestmentsPositive()
    ensures forall i | 0 <= i < |DefaultInvestments| :: DefaultInvestments[i] > 0.0
  {
  }

  /** With the zero-average guard, positive investments at a positive price never fail. */
  lemma GuardedNeverFails(cost: real, bought: real, price: real, investments: seq<real>)
    requires bought >= 0.0 && price > 0.0 && forall i | 0 <= i < |investments| :: investments[i] > 0.0
    ensures RunDca(cost, bought, price, investments, GuardZeroAverage).Ok?
  {
    forall i | 0 <= i < |investments| ensures Project(cost, bought, price, investments[i], GuardZeroAverage).Ok? {
      assert investments[i] * (1.0 - FeeRate) / price > 0.0;
    }
  }

  /**
   * Nothing bought means an average of zero, and the source's reduction
   * percentage then divides by zero on the first investment; the guarded rule
   * does not fail.
   */
  lemma ZeroAverageFailsAsWritten(cost: real, price: real, investments: seq<real>)
    requires price > 0.0 && |investments| > 0 && forall i | 0 <= i < |investments| :: investments[i] > 0.0
    ensures RunDca(cost, 0.0, price, investments, DivideAlways) == Err(AverageIsZero)
    ensures RunDca(cost, 0.0, price, investments, GuardZeroAverage).Ok?
  {
    assert Project(cost, 0.0, price, investments[0], DivideAlways) == Err(AverageIsZero) by {
      assert investments[0] * (1.0 - FeeRate) / price > 0.0;
    }
    GuardedNeverFails(cost, 0.0, price, investments);
  }
}
