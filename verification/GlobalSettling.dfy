/** Global settlement of a smartcoin: every position is closed into one fund. */
module GlobalSettling {
  import opened Options
  import opened Amounts
  import opened Rounding
  import opened Prices
  import opened Sums
  import opened Ledgers
  import opened LimitMatching
  import opened LimitMarkets
  import opened MaxDebtToCover
  import opened SettledDebt
  import opened GlobalSettlement
  import opened Smartcoins
  import MarginCalls

  /** Positions with at most this much collateral per debt are margin called when the coin is
      settled, and what reaches the fund is less than what they pay by the squeeze ratio. */
  datatype MarginCheck = MarginCheck(maintenance: Price, mssr: nat)

  /** What a position pays, what of it reaches the fund, and what its owner gets back. */
  datatype Closing = Closing(pays: nat, fundReceives: nat, refund: nat)

  type Plan = map<Account, Closing>

  /** Prices here are debt per collateral. */
  function FundPrice(price: Price, check: Option<MarginCheck>): Price
    requires check.Some? ==> Positive(price) && check.value.mssr > 0
  {
    if check.Some? then Scale(price, check.value.mssr, 1000) else price
  }

  predicate Called(c: Call, check: Option<MarginCheck>) {
    check.Some? && AtMost(Collateralization(c), check.value.maintenance)
  }

  predicate NoneCalled(calls: Calls, check: Option<MarginCheck>) {
    forall who :: who in calls ==> !Called(calls[who], check)
  }

  predicate GoodCheck(price: Price, check: Option<MarginCheck>) {
    && price.base > 0
    && (check.Some? ==> Positive(price) && check.value.mssr > 0 && Positive(check.value.maintenance))
  }

  /** What closing one position comes to. A position that is not margin called pays at the
      fund's price, unless no position is margin called. */
  function ClosingOf(c: Call, price: Price, check: Option<MarginCheck>, someCalled: bool): (r: Closing)
    requires GoodCheck(price, check)
    ensures r.fundReceives <= r.pays && r.pays + r.refund == c.collateral
    ensures c.debt > 0 && c.collateral > 0 && price.quote > 0 ==> r.fundReceives > 0
  {
    var paysPrice := if Called(c, check) || !someCalled then price else FundPrice(price, check);
    PaysSomething(c.debt, paysPrice);
    PaysSomething(c.debt, FundPrice(price, check));
    var pays := Min(ConvertUp(c.debt, paysPrice), c.collateral);
    var fundReceives := if Called(c, check) then Min(ConvertUp(c.debt, FundPrice(price, check)), pays) else pays;
    Closing(pays, fundReceives, c.collateral - pays)
  }

  /** A cost in whole units, rounded up, or the limit if it is more than that. */
  ghost predicate CostsUpTo(x: nat, limit: nat, cost: nat, unit: nat) {
    if cost > limit * unit then x == limit else (x - 1) * unit < cost <= x * unit
  }

  /** Without margin calls positions pay what their debt is worth. When some are called, those pay that
      still, but the fund receives of it what the debt is worth at the price times the squeeze ratio;
      and all others pay only so much. */
  lemma ClosingIsExact(c: Call, price: Price, check: Option<MarginCheck>, someCalled: bool)
    requires GoodCheck(price, check)
    ensures var r := ClosingOf(c, price, check, someCalled);
            var worth := c.debt * price.quote;
            && r.refund == c.collateral - r.pays
            && (check.None? ==>
                  CostsUpTo(r.pays, c.collateral, worth, price.base) && r.fundReceives == r.pays)
            && (check.Some? ==>
                  var m, unit := check.value.maintenance, check.value.mssr * price.base;
                  if c.collateral * m.quote <= c.debt * m.base then
                    && CostsUpTo(r.pays, c.collateral, worth, price.base)
                    && CostsUpTo(r.fundReceives, r.pays, 1000 * worth, unit)
                  else if someCalled then
                    CostsUpTo(r.pays, c.collateral, 1000 * worth, unit) && r.fundReceives == r.pays
                  else
                    CostsUpTo(r.pays, c.collateral, worth, price.base) && r.fundReceives == r.pays)
  {
    LeastCosts(c.debt, price, c.collateral);
    if check.Some? {
      var pays := Min(ConvertUp(c.debt, price), c.collateral);
      SqueezedCosts(c.debt, price, check.value.mssr, c.collateral);
      SqueezedCosts(c.debt, price, check.value.mssr, pays);
      assert Called(c, check) <==>
            c.collateral * check.value.maintenance.quote <= c.debt * check.value.maintenance.base;
    }
  }

  lemma SqueezedCosts(debt: nat, price: Price, mssr: nat, limit: nat)
    requires Positive(price) && mssr > 0
    ensures CostsUpTo(Min(ConvertUp(debt, Scale(price, mssr, 1000)), limit), limit,
                      1000 * (debt * price.quote), mssr * price.base)
  {
    var p := Scale(price, mssr, 1000);
    LeastCosts(debt, p, limit);
    assert debt * p.quote == 1000 * (debt * price.quote);
    assert p.base == mssr * price.base;
  }

  lemma LeastCosts(debt: nat, p: Price, limit: nat)
    requires p.base > 0
    ensures CostsUpTo(Min(ConvertUp(debt, p), limit), limit, debt * p.quote, p.base)
  {
    ConvertUpGalois(debt, p, limit);
    ConvertUpGalois(debt, p, ConvertUp(debt, p));
    ConvertUpGalois(debt, p, ConvertUp(debt, p) - 1);
  }

  lemma PaysSomething(debt: nat, p: Price)
    requires p.base > 0
    ensures debt > 0 && p.quote > 0 ==> ConvertUp(debt, p) > 0
  {
    if debt > 0 && p.quote > 0 {
      RoundTripUp(debt, p);
    }
  }

  ghost function PlanFor(calls: Calls, price: Price, check: Option<MarginCheck>): Plan
    requires GoodCheck(price, check)
  {
    map who | who in calls :: ClosingOf(calls[who], price, check, !NoneCalled(calls, check))
  }

  /** A plan for some of the positions, when `someCalled` says whether any of all of them is
      margin called. */
  ghost predicate Follows(plan: Plan, calls: Calls, price: Price, check: Option<MarginCheck>, someCalled: bool)
    requires GoodCheck(price, check)
  {
    && plan.Keys == calls.Keys
    && forall who :: who in plan ==> plan[who] == ClosingOf(calls[who], price, check, someCalled)
  }

  /** What the fund gathers, and the margin call fees that are left behind. */
  ghost function Gathered(plan: Plan): int {
    Sum(plan, (who: Account, r: Closing) => r.fundReceives)
  }

  ghost function FeesOf(plan: Plan): int {
    Sum(plan, (who: Account, r: Closing) => r.pays - r.fundReceives)
  }

  lemma PlanStep(plan: Plan, who: Account)
    requires who in plan
    ensures Gathered(plan) == Gathered(plan - {who}) + plan[who].fundReceives
    ensures FeesOf(plan) == FeesOf(plan - {who}) + plan[who].pays - plan[who].fundReceives
  {
    SumRemove(plan, (who: Account, r: Closing) => r.fundReceives, who);
    SumRemove(plan, (who: Account, r: Closing) => r.pays - r.fundReceives, who);
  }

  /** What global settlement adds to one slot of the ledger: a borrower gets back what its
      position does not pay, and the fees are kept for the issuer. */
  ghost function ClosingCredit(coin: Smartcoin, slot: Slot, plan: Plan): int
    requires |coin.market.assets| == 2
  {
    if slot == CollateralFees(coin.DebtAsset(), coin.CollateralAsset()) then
      FeesOf(plan)
    else if slot.Balance? && slot.asset == coin.CollateralAsset() && slot.owner in plan then
      plan[slot.owner].refund
    else
      0
  }

  /** What a slot holds, with what closing the positions of a plan adds to it. */
  ghost function Owed(coin: Smartcoin, slot: Slot, plan: Plan): int
    reads coin.market.ledger`funds
    requires |coin.market.assets| == 2
  {
    AmountIn(coin.market.ledger.funds, slot) + ClosingCredit(coin, slot, plan)
  }

  lemma ClosingCreditStep(coin: Smartcoin, slot: Slot, plan: Plan, who: Account)
    requires |coin.market.assets| == 2 && who in plan && plan[who].fundReceives <= plan[who].pays
    ensures var r := plan[who];
            ClosingCredit(coin, slot, plan) == ClosingCredit(coin, slot, plan - {who})
              + PostedTo(coin.ClosingPostings(who, r.refund, r.pays - r.fundReceives), slot)
  {
    var r := plan[who];
    PlanStep(plan, who);
    var p := coin.ClosingPostings(who, r.refund, r.pays - r.fundReceives);
    assert p[..1] == [p[0]] && p[..1][..0] == [];
    assert PostedTo(p[..1], slot) == if p[0].slot == slot then p[0].amount else 0;
  }

  /** What holds between two rounds of the settlement, whatever the supply is backed by. */
  ghost predicate Consistent(coin: Smartcoin)
    reads coin, coin.market`book, coin.market.ledger
  {
    coin.market.AtRest() && coin.Positions() && coin.CoreIsExact()
  }

  /** One round: the position is closed and paid out. */
  method CloseForFund(coin: Smartcoin, who: Account, r: Closing, ghost plan: Plan)
    requires Consistent(coin) && who in coin.calls && who in plan && plan[who] == r
    requires r.fundReceives <= r.pays && r.pays + r.refund == coin.calls[who].collateral
    modifies coin`calls, coin`supply, coin.market.ledger
    ensures Consistent(coin)
    ensures coin.calls == old(coin.calls) - {who} && coin.supply == old(coin.supply)
    ensures forall a :: coin.Total(a) == old(coin.Total(a)) - if a == coin.CollateralAsset() then r.fundReceives else 0
    ensures forall slot :: Owed(coin, slot, plan - {who}) == old(Owed(coin, slot, plan))
  {
    var c := coin.calls[who];
    ghost var journal := coin.market.ledger.journal;
    AfterCallFillTotals(coin.calls, who, r.pays, c.debt);
    var closed := coin.FillCallOrder(who, r.pays, c.debt, r.pays - r.fundReceives, false);
    forall slot
      ensures Owed(coin, slot, plan - {who}) == old(Owed(coin, slot, plan))
    {
      ClosingCreditStep(coin, slot, plan, who);
      PostedToConcat(journal, coin.ClosingPostings(who, r.refund, r.pays - r.fundReceives), slot);
    }
  }

  /** `globally_settle_asset`: positions are closed from the least collateralised on, and the
      settlement pool joins the fund. */
  method GloballySettle(coin: Smartcoin, price: Price, check: Option<MarginCheck>)
    requires coin.Valid() && coin.settlementPrice.None? && coin.supply > 0
    requires GoodCheck(price, check) && (!coin.isPredictionMarket ==> price.quote > 0)
    modifies coin`calls, coin`supply, coin`debtOrder, coin`settlementFund, coin`settlementPrice
    modifies coin`response, coin`pool, coin.market.ledger
    ensures coin.Valid()
    ensures forall a :: coin.Total(a) == old(coin.Total(a))
    ensures coin.settlementFund == old(coin.pool).fund + Gathered(PlanFor(old(coin.calls), price, check))
    ensures coin.settlementPrice == Some(Price(coin.supply, coin.settlementFund)) && coin.supply == old(coin.supply)
    ensures coin.calls == map[] && coin.pool == Pool(0, 0) && coin.debtOrder == None
    ensures coin.response == GlobalSettlementResponse
    ensures forall slot :: AmountIn(coin.market.ledger.funds, slot)
              == old(AmountIn(coin.market.ledger.funds, slot))
                + ClosingCredit(coin, slot, PlanFor(old(coin.calls), price, check))
  {
    var collateralGathered := CloseAll(coin, price, check, PlanFor(coin.calls, price, check));
    EnterGlobalSettlement(coin, collateralGathered);
  }

  /** The coin is marked as globally settled. */
  method EnterGlobalSettlement(coin: Smartcoin, collateralGathered: nat)
    requires Consistent(coin) && coin.calls == map[] && coin.supply > 0 && coin.bids == [] && coin.settlementFund == 0
    requires !coin.isPredictionMarket ==> collateralGathered + coin.pool.fund > 0
    modifies coin`debtOrder, coin`settlementFund, coin`settlementPrice, coin`response, coin`pool
    ensures coin.Coherent()
    ensures coin.settlementFund == collateralGathered + old(coin.pool).fund
    ensures coin.settlementPrice == Some(Price(coin.supply, coin.settlementFund))
    ensures coin.pool == Pool(0, 0) && coin.debtOrder == None && coin.response == GlobalSettlementResponse
    ensures forall a ::
      coin.Total(a) == old(coin.Total(a)) + if a == coin.CollateralAsset() then collateralGathered else 0
  {
    coin.debtOrder := None;
    coin.settlementFund := collateralGathered + coin.pool.fund;
    coin.settlementPrice := Some(Price(coin.supply, coin.settlementFund));
    coin.response := GlobalSettlementResponse;
    coin.pool := Pool(0, 0);
  }

  /** Closes all positions, least collateralised first. */
  method CloseAll(coin: Smartcoin, price: Price, check: Option<MarginCheck>, ghost plan: Plan)
    returns (collateralGathered: nat)
    requires Consistent(coin) && GoodCheck(price, check)
    requires Follows(plan, coin.calls, price, check, !NoneCalled(coin.calls, check))
    modifies coin`calls, coin`supply, coin.market.ledger
    ensures Consistent(coin) && coin.calls == map[] && coin.supply == old(coin.supply)
    ensures collateralGathered == Gathered(plan)
    ensures price.quote > 0 && old(coin.calls) != map[] ==> collateralGathered > 0
    ensures forall a ::
      coin.Total(a) == old(coin.Total(a)) - if a == coin.CollateralAsset() then collateralGathered else 0
    ensures forall slot :: AmountIn(coin.market.ledger.funds, slot) == old(Owed(coin, slot, plan))
  {
    CallsHaveCollateral(coin);
    GathersSomething(plan, coin.calls, price, check, !NoneCalled(coin.calls, check));
    var isMarginCall := false;
    if coin.calls != map[] {
      var first;
      first, isMarginCall := NextToSettle(coin.calls, check, true);
    }
    collateralGathered := CloseFrom(coin, price, check, isMarginCall, !NoneCalled(coin.calls, check), plan);
  }

  /** The loop over the positions. */
  method CloseFrom(coin: Smartcoin, price: Price, check: Option<MarginCheck>, startsWithMarginCall: bool,
                   ghost someCalled: bool, ghost plan: Plan)
    returns (collateralGathered: nat)
    requires Consistent(coin) && GoodCheck(price, check)
    requires Follows(plan, coin.calls, price, check, someCalled)
    requires InPhase(coin.calls, price, check, someCalled, startsWithMarginCall, price)
    modifies coin`calls, coin`supply, coin.market.ledger
    ensures Consistent(coin) && coin.calls == map[] && coin.supply == old(coin.supply)
    ensures collateralGathered == Gathered(plan)
    ensures forall a ::
      coin.Total(a) == old(coin.Total(a)) - if a == coin.CollateralAsset() then collateralGathered else 0
    ensures forall slot :: AmountIn(coin.market.ledger.funds, slot) == old(Owed(coin, slot, plan))
  {
    ghost var rest := plan;
    collateralGathered := 0;
    var isMarginCall, callPaysPrice := startsWithMarginCall, price;
    while coin.calls != map[]
      invariant Consistent(coin) && coin.supply == old(coin.supply)
      invariant InPhase(coin.calls, price, check, someCalled, isMarginCall, callPaysPrice)
      invariant Follows(rest, coin.calls, price, check, someCalled)
      invariant collateralGathered + Gathered(rest) == Gathered(plan)
      invariant forall a ::
        coin.Total(a) == old(coin.Total(a)) - if a == coin.CollateralAsset() then collateralGathered else 0
      invariant forall slot :: Owed(coin, slot, rest) == old(Owed(coin, slot, plan))
      decreases |coin.calls|
    {
      ghost var who;
      var fundReceives;
      fundReceives, isMarginCall, callPaysPrice, who := CloseNext(coin, price, check, isMarginCall, callPaysPrice,
                                                                  someCalled, rest);
      rest := rest - {who};
      collateralGathered := collateralGathered + fundReceives;
    }
    assert rest == map[];
  }

  lemma {:induction false} GathersSomething(plan: Plan, calls: Calls, price: Price, check: Option<MarginCheck>,
                                            someCalled: bool)
    requires GoodCheck(price, check) && Follows(plan, calls, price, check, someCalled)
    requires forall a :: a in calls ==> calls[a].debt > 0 && calls[a].collateral > 0
    ensures Gathered(plan) >= 0 && (price.quote > 0 && calls != map[] ==> Gathered(plan) > 0)
    decreases |plan|
  {
    if calls != map[] {
      var who :| who in calls;
      PlanStep(plan, who);
      GathersSomething(plan - {who}, calls - {who}, price, check, someCalled);
    }
  }

  /** While margin calls are closed `isMarginCall` is set; after them no position is left that
      is margin called, and, if there were any, positions pay at the fund's price. */
  ghost predicate InPhase(calls: Calls, price: Price, check: Option<MarginCheck>, someCalled: bool, isMarginCall: bool,
                          callPaysPrice: Price)
    requires GoodCheck(price, check)
  {
    && (isMarginCall ==> someCalled)
    && (!isMarginCall ==> NoneCalled(calls, check))
    && callPaysPrice == if isMarginCall || !someCalled then price else FundPrice(price, check)
  }

  /** One round: the next position is settled, with the change of price after the last margin call. */
  method CloseNext(coin: Smartcoin, price: Price, check: Option<MarginCheck>, isMarginCall: bool, callPaysPrice: Price,
                   ghost someCalled: bool, ghost plan: Plan)
    returns (fundReceives: nat, isMarginCall': bool, callPaysPrice': Price, ghost who: Account)
    requires Consistent(coin) && coin.calls != map[] && GoodCheck(price, check)
    requires Follows(plan, coin.calls, price, check, someCalled)
    requires InPhase(coin.calls, price, check, someCalled, isMarginCall, callPaysPrice)
    modifies coin`calls, coin`supply, coin.market.ledger
    ensures Consistent(coin) && coin.supply == old(coin.supply) && who in plan
    ensures |coin.calls| < |old(coin.calls)|
    ensures Follows(plan - {who}, coin.calls, price, check, someCalled)
    ensures InPhase(coin.calls, price, check, someCalled, isMarginCall', callPaysPrice')
    ensures fundReceives + Gathered(plan - {who}) == Gathered(plan)
    ensures forall a :: coin.Total(a) == old(coin.Total(a)) - if a == coin.CollateralAsset() then fundReceives else 0
    ensures forall slot :: Owed(coin, slot, plan - {who}) == old(Owed(coin, slot, plan))
  {
    CallsHaveCollateral(coin);
    var next, r;
    next, isMarginCall', callPaysPrice', r := NextClosing(coin.calls, price, check, isMarginCall, callPaysPrice,
                                                          someCalled);
    who := next;
    Smaller(coin.calls, next);
    PlanStep(plan, next);
    CloseForFund(coin, next, r, plan);
    fundReceives := r.fundReceives;
  }

  lemma {:induction false} CallsHaveCollateral(coin: Smartcoin)
    requires Consistent(coin)
    ensures forall a :: a in coin.calls ==> coin.calls[a].debt > 0 && coin.calls[a].collateral > 0
  {
  }

  /** The next position to settle and what closing it comes to, which is what the plan says. */
  method NextClosing(calls: Calls, price: Price, check: Option<MarginCheck>, isMarginCall: bool, callPaysPrice: Price,
                     ghost someCalled: bool)
    returns (who: Account, isMarginCall': bool, callPaysPrice': Price, r: Closing)
    requires calls != map[] && GoodCheck(price, check)
    requires forall a :: a in calls ==> calls[a].debt > 0 && calls[a].collateral > 0
    requires InPhase(calls, price, check, someCalled, isMarginCall, callPaysPrice)
    ensures who in calls && r == ClosingOf(calls[who], price, check, someCalled)
    ensures InPhase(calls - {who}, price, check, someCalled, isMarginCall', callPaysPrice')
  {
    isMarginCall', callPaysPrice' := isMarginCall, callPaysPrice;
    var called;
    who, called := NextToSettle(calls, check, isMarginCall);
    if isMarginCall && !called {
      isMarginCall' := false;
      callPaysPrice' := FundPrice(price, check);
    }
    r := ClosingAmounts(calls[who], callPaysPrice', FundPrice(price, check), isMarginCall');
  }

  /** The least collateralised position, and whether it is margin called. */
  method NextToSettle(calls: Calls, check: Option<MarginCheck>, isMarginCall: bool) returns (who: Account, called: bool)
    requires check.Some? ==> Positive(check.value.maintenance)
    requires calls != map[] && forall a :: a in calls ==> calls[a].debt > 0 && calls[a].collateral > 0
    requires !isMarginCall ==> NoneCalled(calls, check)
    ensures who in calls && called == Called(calls[who], check)
    ensures !called ==> NoneCalled(calls, check)
  {
    who := MarginCalls.LeastCollateralized(calls);
    called := Called(calls[who], check);
    if check.Some? && !called {
      MarginCalls.AllAbove(calls, who, check.value.maintenance);
    }
  }

  /** What one position pays, and what of it the fund receives. */
  method ClosingAmounts(c: Call, callPaysPrice: Price, fundReceivesPrice: Price, isMarginCall: bool)
    returns (r: Closing)
    requires callPaysPrice.base > 0 && fundReceivesPrice.base > 0
    ensures r.pays == Min(ConvertUp(c.debt, callPaysPrice), c.collateral) && r.refund == c.collateral - r.pays
    ensures r.fundReceives == if isMarginCall then Min(ConvertUp(c.debt, fundReceivesPrice), r.pays) else r.pays
  {
    var pays := ConvertUp(c.debt, callPaysPrice);
    if pays > c.collateral {
      pays := c.collateral;
    }
    var fundReceives := pays;
    if isMarginCall {
      fundReceives := ConvertUp(c.debt, fundReceivesPrice);
      if fundReceives > pays {
        fundReceives := pays;
      }
    }
    r := Closing(pays, fundReceives, c.collateral - pays);
  }
}
