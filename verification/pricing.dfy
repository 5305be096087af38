/** The reverse-pricing engine of the two marketplace calculators
    (script.js, `calcularPrecoVendaShopee` and `calcularPrecoVendaML`).
    Given what the product costs and what the seller wants to keep, each
    solves for the sale price at which commission, taxes, percentage
    extras and the desired margin are all covered, then derives the fees,
    the net profit and the cost ratios from that price. The DOM reads of
    the source become the fields of an input record; percentages are kept
    as the user typed them (0..100) and divided by 100 where the source
    does. */
module Pricing {
  import opened ExtraCosts

  // Shopee fee schedule (SHOPEE_CONFIG, script.js:2-7)
  const StandardCommission: real := 0.14
  const FreeShippingCommission: real := 0.20
  const FixedFeePerItem: real := 4.0

  /** The cost multiplier shown as "1x", "2x", ... next to the cost field */
  type Multiplier = m: int | m >= 1 witness 1

  /** `Math.max(1, m)` */
  function AtLeastOne(m: int): (r: Multiplier)
    ensures r >= m && (r == m || r == 1)
  {
    if m > 1 then m else 1
  }

  /** The up arrow (script.js:108, 320) */
  function MultiplierUp(m: Multiplier): (r: Multiplier)
    ensures r == m + 1
  {
    AtLeastOne(m + 1)
  }

  /** The down arrow (script.js:116, 328): never goes below 1 */
  function MultiplierDown(m: Multiplier): (r: Multiplier)
    ensures m > 1 ==> r == m - 1
    ensures m == 1 ==> r == 1
  {
    AtLeastOne(m - 1)
  }

  /** What the Shopee calculator reads from its form */
  datatype ShopeeInput = ShopeeInput(
    baseCost: real,
    multiplier: Multiplier,
    taxPercent: real,
    variableExpenses: real,
    marginPercent: real,
    freeShipping: bool,
    extras: seq<ExtraCost>)

  /** What the Mercado Livre calculator reads from its form; the commission
      and the shipping value come from two selects */
  datatype MLInput = MLInput(
    baseCost: real,
    multiplier: Multiplier,
    taxPercent: real,
    variableExpenses: real,
    marginPercent: real,
    commissionPercent: real,
    shippingValue: real,
    extras: seq<ExtraCost>)

  /** The figures a calculator displays, plus the percentage-extras amount
      the source computes on the way to the profit. `platformFee` is the
      Shopee commission plus the fixed fee, or the Mercado Livre commission
      alone. */
  datatype PricingResult = PricingResult(
    salePrice: real,
    netProfit: real,
    platformFee: real,
    taxAmount: real,
    extraPercentAmount: real,
    totalProductCost: real,
    returnOnCostPct: real,
    markupPct: real,
    markupX: real)

  datatype CostRatios = CostRatios(returnOnCostPct: real, markupPct: real, markupX: real)

  /** Base cost times the multiplier plus the flat extras; the multiplier
      never touches the extras */
  function TotalProductCost(baseCost: real, multiplier: Multiplier, extras: seq<ExtraCost>): real {
    baseCost * multiplier as real + FlatSum(extras)
  }

  /** Return on cost, markup percentage and markup factor, each guarded
      against a total cost that is not positive */
  function Ratios(salePrice: real, netProfit: real, totalCost: real): (r: CostRatios)
    ensures totalCost <= 0.0 ==> r == CostRatios(0.0, 0.0, 0.0)
    ensures totalCost > 0.0 ==>
              && r.returnOnCostPct * totalCost == netProfit * 100.0
              && r.markupPct * totalCost == (salePrice - totalCost) * 100.0
              && r.markupX * totalCost == salePrice
  {
    if totalCost > 0.0 then
      CostRatios((netProfit / totalCost) * 100.0, ((salePrice - totalCost) / totalCost) * 100.0, salePrice / totalCost)
    else
      CostRatios(0.0, 0.0, 0.0)
  }

  // ===== Shopee =====

  function ShopeeCommission(freeShipping: bool): real {
    if freeShipping then FreeShippingCommission else StandardCommission
  }

  /** One minus every rate the sale price has to cover */
  function ShopeeDenominator(i: ShopeeInput): real {
    ShopeeDenominatorOf(PercentRate(i.extras), i.freeShipping, i.marginPercent, i.taxPercent)
  }

  function ShopeeDenominatorOf(extraRate: real, freeShipping: bool, marginPercent: real, taxPercent: real): real {
    1.0 - ShopeeCommission(freeShipping) - (marginPercent / 100.0) - (taxPercent / 100.0) - extraRate
  }

  /** `calcularPrecoVendaShopee`: when the rates leave room (a positive
      denominator) the price is the one that covers all costs plus the fixed
      fee; otherwise the price is 0 while the costs are still charged. */
  function ShopeePrice(i: ShopeeInput): (r: PricingResult)
    ensures r.totalProductCost == TotalProductCost(i.baseCost, i.multiplier, i.extras)
    ensures ShopeeDenominator(i) > 0.0 ==>
              r.salePrice * ShopeeDenominator(i) == r.totalProductCost + i.variableExpenses + FixedFeePerItem
    ensures ShopeeDenominator(i) <= 0.0 ==> r.salePrice == 0.0
  {
    ShopeeFromAggregates(TotalProductCost(i.baseCost, i.multiplier, i.extras), PercentRate(i.extras),
                         i.freeShipping, i.marginPercent, i.taxPercent, i.variableExpenses)
  }

  /** The Shopee formula once the extra-cost rows have been aggregated into
      a total product cost and a percentage rate */
  function ShopeeFromAggregates(totalCost: real, extraRate: real, freeShipping: bool,
                                marginPercent: real, taxPercent: real, variableExpenses: real): PricingResult
  {
    var commission := ShopeeCommission(freeShipping);
    var d := ShopeeDenominatorOf(extraRate, freeShipping, marginPercent, taxPercent);
    var price := if d > 0.0 then (totalCost + variableExpenses + FixedFeePerItem) / d else 0.0;
    var tax := price * (taxPercent / 100.0);
    var extraAmount := price * extraRate;
    var fee := price * commission + FixedFeePerItem;
    var profit := price - totalCost - variableExpenses - fee - tax - extraAmount;
    var ratios := Ratios(price, profit, totalCost);
    PricingResult(price, profit, fee, tax, extraAmount, totalCost,
                  ratios.returnOnCostPct, ratios.markupPct, ratios.markupX)
  }

  /** The displayed return and markups are those of the price, profit and
      total cost, and all three are 0 when the total cost is not positive */
  lemma ShopeeCostRatios(i: ShopeeInput)
    ensures var r := ShopeePrice(i);
            && (r.totalProductCost <= 0.0 ==> r.returnOnCostPct == 0.0 && r.markupPct == 0.0 && r.markupX == 0.0)
            && (r.totalProductCost > 0.0 ==>
                  && r.returnOnCostPct * r.totalProductCost == r.netProfit * 100.0
                  && r.markupPct * r.totalProductCost == (r.salePrice - r.totalProductCost) * 100.0
                  && r.markupX * r.totalProductCost == r.salePrice)
  {
  }

  /** The commission is 20% with free shipping and 14% without, and the
      R$4.00 fixed fee is always part of the platform fee; the tax and the
      percentage extras are their rates of the price */
  lemma ShopeeFeeSchedule(i: ShopeeInput)
    ensures var r := ShopeePrice(i);
            && (i.freeShipping ==> r.platformFee == 0.20 * r.salePrice + 4.0)
            && (!i.freeShipping ==> r.platformFee == 0.14 * r.salePrice + 4.0)
            && r.taxAmount == r.salePrice * i.taxPercent / 100.0
            && r.extraPercentAmount == r.salePrice * PercentRate(i.extras)
  {
    var r := ShopeePrice(i);
    assert r.platformFee == r.salePrice * ShopeeCommission(i.freeShipping) + FixedFeePerItem;
    assert r.taxAmount == r.salePrice * (i.taxPercent / 100.0);
  }

  /** With a positive denominator the seller keeps exactly the desired
      margin of the sale price */
  lemma ShopeeMarginIdentity(i: ShopeeInput)
    requires ShopeeDenominator(i) > 0.0
    ensures ShopeePrice(i).netProfit == (i.marginPercent / 100.0) * ShopeePrice(i).salePrice
  {
  }

  /** With a denominator that is not positive the price, tax and
      percentage extras are 0 but the costs and the fixed fee are still
      charged, so the profit is their negation */
  lemma ShopeeInfeasible(i: ShopeeInput)
    requires ShopeeDenominator(i) <= 0.0
    ensures var r := ShopeePrice(i);
            && r.salePrice == 0.0 && r.taxAmount == 0.0 && r.extraPercentAmount == 0.0
            && r.platformFee == FixedFeePerItem
            && r.netProfit == -(r.totalProductCost + i.variableExpenses + FixedFeePerItem)
            && (r.totalProductCost > 0.0 ==> r.markupPct == -100.0 && r.markupX == 0.0)
  {
    var r := ShopeePrice(i);
    var tc := r.totalProductCost;
    if tc > 0.0 {
      var q := Ratios(0.0, r.netProfit, tc);
      assert (q.markupPct + 100.0) * tc == 0.0;
    }
  }

  // ===== Mercado Livre =====

  /** One minus every rate; the shipping value is subtracted here as if it
      were a percentage */
  function MLDenominator(i: MLInput): real {
    MLDenominatorOf(PercentRate(i.extras), i.commissionPercent, i.shippingValue, i.marginPercent, i.taxPercent)
  }

  function MLDenominatorOf(extraRate: real, commissionPercent: real, shippingValue: real,
                           marginPercent: real, taxPercent: real): real {
    1.0 - (commissionPercent / 100.0) - (shippingValue / 100.0) - (marginPercent / 100.0)
        - (taxPercent / 100.0) - extraRate
  }

  /** `calcularPrecoVendaML`: the price covers costs only (no fixed fee);
      the shipping value is then charged as a flat amount in the profit. */
  function MLPrice(i: MLInput): (r: PricingResult)
    ensures r.totalProductCost == TotalProductCost(i.baseCost, i.multiplier, i.extras)
    ensures MLDenominator(i) > 0.0 ==>
              r.salePrice * MLDenominator(i) == r.totalProductCost + i.variableExpenses
    ensures MLDenominator(i) <= 0.0 ==> r.salePrice == 0.0
  {
    MLFromAggregates(TotalProductCost(i.baseCost, i.multiplier, i.extras), PercentRate(i.extras),
                     i.commissionPercent, i.shippingValue, i.marginPercent, i.taxPercent, i.variableExpenses)
  }

  /** The Mercado Livre formula once the extra-cost rows have been
      aggregated */
  function MLFromAggregates(totalCost: real, extraRate: real, commissionPercent: real, shippingValue: real,
                            marginPercent: real, taxPercent: real, variableExpenses: real): PricingResult
  {
    var d := MLDenominatorOf(extraRate, commissionPercent, shippingValue, marginPercent, taxPercent);
    var price := if d > 0.0 then (totalCost + variableExpenses) / d else 0.0;
    var tax := price * (taxPercent / 100.0);
    var extraAmount := price * extraRate;
    var fee := price * (commissionPercent / 100.0);
    var profit := price - totalCost - variableExpenses - fee - shippingValue - tax - extraAmount;
    var ratios := Ratios(price, profit, totalCost);
    PricingResult(price, profit, fee, tax, extraAmount, totalCost,
                  ratios.returnOnCostPct, ratios.markupPct, ratios.markupX)
  }

  /** The same guarded cost ratios for the Mercado Livre result */
  lemma MLCostRatios(i: MLInput)
    ensures var r := MLPrice(i);
            && (r.totalProductCost <= 0.0 ==> r.returnOnCostPct == 0.0 && r.markupPct == 0.0 && r.markupX == 0.0)
            && (r.totalProductCost > 0.0 ==>
                  && r.returnOnCostPct * r.totalProductCost == r.netProfit * 100.0
                  && r.markupPct * r.totalProductCost == (r.salePrice - r.totalProductCost) * 100.0
                  && r.markupX * r.totalProductCost == r.salePrice)
  {
  }

  /** The Mercado Livre fee figure is the selected commission of the price
      alone (the shipping value is not part of it); the tax and the
      percentage extras are their rates of the price */
  lemma MLFeeSchedule(i: MLInput)
    ensures var r := MLPrice(i);
            && r.platformFee == r.salePrice * i.commissionPercent / 100.0
            && r.taxAmount == r.salePrice * i.taxPercent / 100.0
            && r.extraPercentAmount == r.salePrice * PercentRate(i.extras)
  {
  }

  /** With a positive denominator the profit is the margin plus the
      shipping rate of the price, minus the shipping value; so the margin
      is kept exactly only when shipping is 0 */
  lemma MLMarginIdentity(i: MLInput)
    requires MLDenominator(i) > 0.0
    ensures var r := MLPrice(i);
            && r.netProfit == (i.marginPercent / 100.0 + i.shippingValue / 100.0) * r.salePrice - i.shippingValue
            && (i.shippingValue == 0.0 ==> r.netProfit == (i.marginPercent / 100.0) * r.salePrice)
  {
  }

  /** With a denominator that is not positive nothing is collected but the
      costs and the shipping value are still charged, so with a positive
      cost the markup is -100% */
  lemma MLInfeasible(i: MLInput)
    requires MLDenominator(i) <= 0.0
    ensures var r := MLPrice(i);
            && r.salePrice == 0.0 && r.taxAmount == 0.0 && r.extraPercentAmount == 0.0
            && r.platformFee == 0.0
            && r.netProfit == -(r.totalProductCost + i.variableExpenses + i.shippingValue)
            && (r.totalProductCost > 0.0 ==> r.markupPct == -100.0 && r.markupX == 0.0)
  {
    var r := MLPrice(i);
    var tc := r.totalProductCost;
    if tc > 0.0 {
      var q := Ratios(0.0, r.netProfit, tc);
      assert (q.markupPct + 100.0) * tc == 0.0;
    }
  }

  // ===== Extra-cost list edits =====

  /** Reordering the extra-cost rows changes nothing in the Shopee
      calculator */
  lemma ShopeeExtrasOrderIndependent(i: ShopeeInput, reordered: seq<ExtraCost>)
    requires multiset(reordered) == multiset(i.extras)
    ensures ShopeePrice(i.(extras := reordered)) == ShopeePrice(i)
  {
    PartitionOrderIndependent(i.extras, reordered);
  }

  /** Reordering the extra-cost rows changes nothing in the Mercado Livre
      calculator */
  lemma MLExtrasOrderIndependent(j: MLInput, reordered: seq<ExtraCost>)
    requires multiset(reordered) == multiset(j.extras)
    ensures MLPrice(j.(extras := reordered)) == MLPrice(j)
  {
    PartitionOrderIndependent(j.extras, reordered);
  }

  /** Removing a row gives the cost and rates of the list without it: the
      flat total loses that row's amount and the denominator regains that
      row's rate */
  lemma ShopeeRemoveExtra(i: ShopeeInput, k: nat)
    requires k < |i.extras|
    ensures var removed := i.(extras := i.extras[..k] + i.extras[k + 1..]);
            && ShopeePrice(removed).totalProductCost == ShopeePrice(i).totalProductCost - FlatPart(i.extras[k])
            && ShopeeDenominator(removed) == ShopeeDenominator(i) + RatePart(i.extras[k])
  {
    RemoveRow(i.extras, k);
  }

  /** Same for the Mercado Livre calculator */
  lemma MLRemoveExtra(i: MLInput, k: nat)
    requires k < |i.extras|
    ensures var removed := i.(extras := i.extras[..k] + i.extras[k + 1..]);
            && MLPrice(removed).totalProductCost == MLPrice(i).totalProductCost - FlatPart(i.extras[k])
            && MLDenominator(removed) == MLDenominator(i) + RatePart(i.extras[k])
  {
    RemoveRow(i.extras, k);
  }

  /** Adding a row shifts the aggregates the other way from removing it:
      the total cost gains the row's flat amount and the denominator loses
      the row's rate; a row whose kind is neither "real" nor "percent"
      leaves both results unchanged */
  lemma AddExtra(i: ShopeeInput, j: MLInput, c: ExtraCost)
    ensures var si := i.(extras := i.extras + [c]);
            var mj := j.(extras := j.extras + [c]);
            && ShopeePrice(si).totalProductCost == ShopeePrice(i).totalProductCost + FlatPart(c)
            && ShopeeDenominator(si) == ShopeeDenominator(i) - RatePart(c)
            && MLPrice(mj).totalProductCost == MLPrice(j).totalProductCost + FlatPart(c)
            && MLDenominator(mj) == MLDenominator(j) - RatePart(c)
            && (c.kind != FlatKind && c.kind != PercentKind ==> ShopeePrice(si) == ShopeePrice(i) && MLPrice(mj) == MLPrice(j))
  {
    AddThenRemove(i.extras, c);
    AddThenRemove(j.extras, c);
  }

  /** Pressing "add extra cost" leaves both results unchanged until the new
      row is edited */
  lemma NewRowIsNeutral(i: ShopeeInput, j: MLInput)
    ensures ShopeePrice(i.(extras := i.extras + [NewRow()])) == ShopeePrice(i)
    ensures MLPrice(j.(extras := j.extras + [NewRow()])) == MLPrice(j)
  {
  }

  // ===== Multiplier =====

  /** The multiplier scales the base cost and nothing else: a total cost
      computed with multiplier m is the total cost of m times the base cost
      with multiplier 1 */
  lemma MultiplierScalesBaseCostOnly(base: real, m: Multiplier, extras: seq<ExtraCost>)
    ensures TotalProductCost(base, m, extras) == TotalProductCost(base * m as real, 1, extras)
    ensures TotalProductCost(base, m, extras) - TotalProductCost(base, m, []) ==
            TotalProductCost(base, 1, extras) - TotalProductCost(base, 1, [])
  {
  }

  /** Hence both calculators price multiplier m exactly as m times the
      base cost with multiplier 1, extras and expenses unscaled */
  lemma PriceWithMultiplier(i: ShopeeInput, j: MLInput, m: Multiplier)
    ensures ShopeePrice(i.(multiplier := m)) == ShopeePrice(i.(baseCost := i.baseCost * m as real, multiplier := 1))
    ensures MLPrice(j.(multiplier := m)) == MLPrice(j.(baseCost := j.baseCost * m as real, multiplier := 1))
  {
    MultiplierScalesBaseCostOnly(i.baseCost, m, i.extras);
    MultiplierScalesBaseCostOnly(j.baseCost, m, j.extras);
  }

  /** Up then down returns to the same multiplier; down then up does too
      unless the multiplier was already 1 */
  lemma MultiplierUpDown(m: Multiplier)
    ensures MultiplierDown(MultiplierUp(m)) == m
    ensures m > 1 ==> MultiplierUp(MultiplierDown(m)) == m
    ensures MultiplierUp(MultiplierDown(1)) == 2
  {
  }

  // ===== Reset =====

  /** `resetarCalculadoraShopee` (script.js:265-278): empty fields read as 0,
      margin 0, no extras, multiplier 1 and free shipping switched ON, so the
      fixed fee alone still yields a price of 4.00 / 0.80 = 5.00 */
  function ShopeeReset(): (i: ShopeeInput)
    ensures ShopeeDenominator(i) == 0.80
    ensures ShopeePrice(i).salePrice == 5.0 && ShopeePrice(i).netProfit == 0.0
  {
    ShopeeInput(0.0, 1, 0.0, 0.0, 0.0, true, [])
  }

  /** `resetarCalculadoraML` (script.js:481-495): both selects back to "0",
      so the denominator is 1 and every figure is 0 */
  function MLReset(): (i: MLInput)
    ensures MLDenominator(i) == 1.0
    ensures MLPrice(i) == PricingResult(0.0, 0.0, 0.0, 0.0, 0.0, 0.0, 0.0, 0.0, 0.0)
  {
    MLInput(0.0, 1, 0.0, 0.0, 0.0, 0.0, 0.0, [])
  }

  // ===== Worked examples =====

  /** Cost 20.00, 20% margin, standard commission: (20 + 4) / 0.66 */
  lemma ShopeeStandardExample()
    ensures var r := ShopeePrice(ShopeeInput(20.0, 1, 0.0, 0.0, 20.0, false, []));
            r.salePrice == 24.0 / 0.66 && 36.36 < r.salePrice < 36.37
  {
    var i := ShopeeInput(20.0, 1, 0.0, 0.0, 20.0, false, []);
    assert TotalProductCost(i.baseCost, i.multiplier, i.extras) == 20.0;
    assert ShopeeDenominator(i) == 0.66;
  }

  /** Cost 50.00 times 2, 12% commission, shipping 15, 5% tax, 25% margin:
      the shipping value is also subtracted as 15% in the denominator, so the
      price is 100 / 0.43, not 100 / 0.58 */
  lemma MLShippingExample()
    ensures var r := MLPrice(MLInput(50.0, 2, 5.0, 0.0, 25.0, 12.0, 15.0, []));
            r.salePrice == 100.0 / 0.43 && 232.55 < r.salePrice < 232.56
  {
    var i := MLInput(50.0, 2, 5.0, 0.0, 25.0, 12.0, 15.0, []);
    assert TotalProductCost(i.baseCost, i.multiplier, i.extras) == 100.0;
    assert MLDenominator(i) == 0.43;
  }

  /** Tax 100% with every other field empty: the denominator is exactly 0,
      so there is no price, yet nothing is charged and the profit shows as
      neutral rather than as a loss */
  lemma MLBreakEvenExample()
    ensures var i := MLInput(0.0, 1, 100.0, 0.0, 0.0, 0.0, 0.0, []);
            && MLDenominator(i) == 0.0
            && MLPrice(i).netProfit == 0.0
            && ProfitColorOf(MLPrice(i).netProfit) == Primary
  {
    var i := MLInput(0.0, 1, 100.0, 0.0, 0.0, 0.0, 0.0, []);
    MLInfeasible(i);
  }

  // ===== Profit colour =====

  datatype ProfitColor = Success | Danger | Primary

  /** The colour of the profit figure (script.js:256-262, 472-478) */
  function ProfitColorOf(profit: real): (c: ProfitColor)
    ensures c == Success <==> profit > 0.0
    ensures c == Danger <==> profit < 0.0
    ensures c == Primary <==> profit == 0.0
  {
    if profit > 0.0 then Success
    else if profit < 0.0 then Danger
    else Primary
  }

  /** With non-negative costs the Shopee profit colour is decided by
      feasibility and the margin alone */
  lemma ShopeeProfitColor(i: ShopeeInput)
    requires i.baseCost >= 0.0 && i.variableExpenses >= 0.0 && i.marginPercent >= 0.0
    requires forall k :: 0 <= k < |i.extras| ==> i.extras[k].value >= 0.0
    ensures ShopeeDenominator(i) <= 0.0 ==> ProfitColorOf(ShopeePrice(i).netProfit) == Danger
    ensures ShopeeDenominator(i) > 0.0 && i.marginPercent > 0.0 ==> ProfitColorOf(ShopeePrice(i).netProfit) == Success
    ensures ShopeeDenominator(i) > 0.0 && i.marginPercent == 0.0 ==> ProfitColorOf(ShopeePrice(i).netProfit) == Primary
  {
    var r := ShopeePrice(i);
    SumNonNegative(i.extras);
    assert i.baseCost * i.multiplier as real >= 0.0;
    assert r.totalProductCost >= 0.0;
    var d := ShopeeDenominator(i);
    if d <= 0.0 {
      ShopeeInfeasible(i);
    } else {
      ShopeeMarginIdentity(i);
      assert r.salePrice > 0.0 by {
        assert r.salePrice == (r.totalProductCost + i.variableExpenses + FixedFeePerItem) / d;
      }
      if i.marginPercent > 0.0 {
        assert (i.marginPercent / 100.0) * r.salePrice > 0.0;
      }
    }
  }

  /** An infeasible Mercado Livre configuration with non-negative costs and
      shipping never shows a gain, and shows a loss as soon as anything is
      charged (unlike Shopee, there is no fixed fee to guarantee that) */
  lemma MLInfeasibleColor(i: MLInput)
    requires i.baseCost >= 0.0 && i.variableExpenses >= 0.0 && i.shippingValue >= 0.0
    requires forall k :: 0 <= k < |i.extras| ==> i.extras[k].value >= 0.0
    requires MLDenominator(i) <= 0.0
    ensures ProfitColorOf(MLPrice(i).netProfit) != Success
    ensures ProfitColorOf(MLPrice(i).netProfit) == Danger <==>
              MLPrice(i).totalProductCost + i.variableExpenses + i.shippingValue > 0.0
  {
    SumNonNegative(i.extras);
    assert i.baseCost * i.multiplier as real >= 0.0;
    assert MLPrice(i).totalProductCost >= 0.0;
    MLInfeasible(i);
  }
}
