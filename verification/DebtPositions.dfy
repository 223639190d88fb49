/** Debt positions opened, changed and closed by their owners, and the choice of the black
    swan response. */
module DebtPositions {
  import opened Options
  import opened Prices
  import opened Sums
  import opened Ledgers
  import opened LimitMatching
  import opened LimitMarkets
  import opened MaxDebtToCover
  import opened SettledDebt
  import opened GlobalSettlement
  import opened Smartcoins
  import opened FeedPolicy

  datatype Update = Update(who: Account, deltaCollateral: int, deltaDebt: int, targetRatio: Option<nat>)

  /** What besides the positions and balances decides on an update. `initial` is the collateral
      per debt asked of a new position, known while the coin has a price feed. */
  datatype Rules = Rules(canCreateSupply: bool, maxSupply: nat, votedRecently: bool, initial: Option<Price>)

  function DebtOf(calls: Calls, who: Account): nat {
    if who in calls then calls[who].debt else 0
  }

  function NewCollateral(calls: Calls, u: Update): int {
    CollateralOf(calls, u.who) + u.deltaCollateral
  }

  function NewDebt(calls: Calls, u: Update): int {
    DebtOf(calls, u.who) + u.deltaDebt
  }

  /** The positions after an update; one without debt is closed. */
  function Updated(calls: Calls, u: Update): Calls
    requires NewDebt(calls, u) >= 0 && NewCollateral(calls, u) >= 0
  {
    if NewDebt(calls, u) == 0 then calls - {u.who}
    else calls[u.who := Call(NewCollateral(calls, u), NewDebt(calls, u), u.targetRatio)]
  }

  predicate Closes(calls: Calls, u: Update) {
    u.who in calls && NewDebt(calls, u) == 0
  }

  /** Less debt or the same, and more collateral per debt. */
  predicate IncreasesRatio(calls: Calls, u: Update)
    requires NewCollateral(calls, u) >= 0 && NewDebt(calls, u) >= 0
  {
    && u.who in calls && u.deltaDebt <= 0
    && Below(Collateralization(calls[u.who]), Price(NewCollateral(calls, u), NewDebt(calls, u)))
  }

  /** The checks of `call_order_update` before and after the change, under the policy of this chain:
      margin calls are disabled wherever positions are managed, so that no check fills orders. */
  predicate Allowed(calls: Calls, supply: nat, isPredictionMarket: bool, u: Update, rules: Rules) {
    && (u.deltaDebt != 0 || u.deltaCollateral != 0)
    && (u.deltaDebt > 0 ==> rules.canCreateSupply)
    && supply + u.deltaDebt <= rules.maxSupply
    && (if u.who !in calls then u.deltaCollateral > 0 && u.deltaDebt > 0
        else if NewDebt(calls, u) == 0 then NewCollateral(calls, u) == 0
        else NewCollateral(calls, u) > 0 && NewDebt(calls, u) > 0)
    && (if !ManagesMarginPositions(isPredictionMarket) then
          u.deltaCollateral == u.deltaDebt
        else
          && (rules.initial.None? ==> Closes(calls, u))
          && (u.deltaDebt > 0 ==> rules.votedRecently)
          && (!Closes(calls, u) ==>
                && (u.who in calls && Below(Collateralization(calls[u.who]), rules.initial.value) ==>
                      u.deltaDebt <= 0 && u.deltaCollateral >= 0)
                && (IncreasesRatio(calls, u)
                    || AtMost(rules.initial.value, Price(NewCollateral(calls, u), NewDebt(calls, u))))))
  }

  /** What these checks come to: something changes, new debt may be created and fits into the supply,
      and the position is closed as a whole or has both collateral and debt. In a prediction market
      both change by the same amount. Elsewhere debt is taken only by those who voted, and a position
      that is left open has the initial ratio, or a higher ratio than before for no more debt; one
      below that ratio gives up neither collateral nor takes debt. */
  lemma AllowedMeans(calls: Calls, supply: nat, isPredictionMarket: bool, u: Update, rules: Rules)
    requires forall who :: who in calls ==> calls[who].debt > 0 && calls[who].collateral > 0
    ensures var c, d := CollateralOf(calls, u.who), DebtOf(calls, u.who);
            var c', d' := c + u.deltaCollateral, d + u.deltaDebt;
            Allowed(calls, supply, isPredictionMarket, u, rules) <==>
              && !(u.deltaDebt == 0 && u.deltaCollateral == 0)
              && (u.deltaDebt <= 0 || (rules.canCreateSupply && (isPredictionMarket || rules.votedRecently)))
              && supply + u.deltaDebt <= rules.maxSupply
              && ((u.who in calls && c' == 0 && d' == 0) || (c' > 0 && d' > 0))
              && (isPredictionMarket ==> u.deltaCollateral == u.deltaDebt)
              && (!isPredictionMarket && d' > 0 ==>
                    && rules.initial.Some?
                    && var p := rules.initial.value;
                       && (c * p.quote < d * p.base ==> u.deltaDebt <= 0 && u.deltaCollateral >= 0)
                       && (d' * p.base <= c' * p.quote || (u.deltaDebt <= 0 && c * d' < c' * d)))
  {
  }

  /** The check that an update does not bring the supply below zero is redundant. */
  lemma SupplyStaysPositive(coin: Smartcoin, u: Update, rules: Rules)
    requires coin.Coherent() && coin.settlementPrice.None?
    requires Allowed(coin.calls, coin.supply, coin.isPredictionMarket, u, rules)
    ensures coin.supply + u.deltaDebt >= 0
  {
    CallsBound(coin.calls);
  }

  lemma UpdatedTotals(calls: Calls, u: Update)
    requires NewDebt(calls, u) >= 0 && NewCollateral(calls, u) >= 0
    requires NewDebt(calls, u) == 0 ==> u.who in calls && NewCollateral(calls, u) == 0
    ensures Debts(Updated(calls, u)) == Debts(calls) + u.deltaDebt
    ensures Collaterals(Updated(calls, u)) == Collaterals(calls) + u.deltaCollateral
  {
    if NewDebt(calls, u) == 0 {
      CallsRemove(calls, u.who);
    } else {
      CallsPut(calls, u.who, Call(NewCollateral(calls, u), NewDebt(calls, u), u.targetRatio));
    }
  }

  /** `call_order_update`: debt is issued to or taken back from the owner's balance, collateral
      taken from or given back to it, or nothing happens at all. A position that is left open
      and was not allowed before is only ever made safer. */
  method UpdateCallOrder(coin: Smartcoin, u: Update, rules: Rules) returns (ok: bool)
    requires coin.Valid() && coin.settlementPrice.None?
    modifies coin`calls, coin`supply, coin.market.ledger
    ensures coin.Valid()
    ensures forall a :: coin.Total(a) == old(coin.Total(a))
    ensures ok <==>
      && Allowed(old(coin.calls), old(coin.supply), coin.isPredictionMarket, u, rules)
      && old(AmountIn(coin.market.ledger.funds, Balance(u.who, coin.DebtAsset()))) + u.deltaDebt >= 0
      && old(AmountIn(coin.market.ledger.funds, Balance(u.who, coin.CollateralAsset()))) >= u.deltaCollateral
    ensures ok ==> coin.calls == Updated(old(coin.calls), u) && coin.supply == old(coin.supply) + u.deltaDebt
    ensures ok ==>
      coin.market.ledger.journal == old(coin.market.ledger.journal)
        + [ Posting(Balance(u.who, coin.DebtAsset()), u.deltaDebt),
            Posting(Balance(u.who, coin.CollateralAsset()), 0 - u.deltaCollateral) ]
    ensures !ok ==>
      && coin.calls == old(coin.calls)
      && coin.supply == old(coin.supply)
      && coin.market.ledger.journal == old(coin.market.ledger.journal)
    ensures ok ==> coin.supply <= rules.maxSupply && (u.deltaDebt > 0 ==> rules.canCreateSupply)
    ensures ok && u.deltaDebt > 0 && !coin.isPredictionMarket ==> rules.votedRecently
    ensures ok && coin.isPredictionMarket ==> u.deltaCollateral == u.deltaDebt
    ensures ok && !coin.isPredictionMarket && u.who in coin.calls ==>
      || AtMost(rules.initial.value, Collateralization(coin.calls[u.who]))
      || (u.who in old(coin.calls) && coin.calls[u.who].debt <= old(coin.calls)[u.who].debt
          && Below(Collateralization(old(coin.calls)[u.who]), Collateralization(coin.calls[u.who])))
  {
    if !Allowed(coin.calls, coin.supply, coin.isPredictionMarket, u, rules) {
      return false;
    }
    if AmountIn(coin.market.ledger.funds, Balance(u.who, coin.DebtAsset())) + u.deltaDebt < 0
       || AmountIn(coin.market.ledger.funds, Balance(u.who, coin.CollateralAsset())) < u.deltaCollateral {
      return false;
    }
    SupplyStaysPositive(coin, u, rules);
    ChangePosition(coin, u);
    ok := true;
  }

  method ChangePosition(coin: Smartcoin, u: Update)
    requires coin.Valid() && coin.settlementPrice.None? && coin.supply + u.deltaDebt >= 0
    requires AmountIn(coin.market.ledger.funds, Balance(u.who, coin.DebtAsset())) + u.deltaDebt >= 0
    requires AmountIn(coin.market.ledger.funds, Balance(u.who, coin.CollateralAsset())) >= u.deltaCollateral
    requires if NewDebt(coin.calls, u) == 0 then u.who in coin.calls && NewCollateral(coin.calls, u) == 0
             else NewDebt(coin.calls, u) > 0 && NewCollateral(coin.calls, u) > 0
    modifies coin`calls, coin`supply, coin.market.ledger
    ensures coin.Valid()
    ensures forall a :: coin.Total(a) == old(coin.Total(a))
    ensures coin.calls == Updated(old(coin.calls), u) && coin.supply == old(coin.supply) + u.deltaDebt
    ensures coin.market.ledger.journal == old(coin.market.ledger.journal)
              + [ Posting(Balance(u.who, coin.DebtAsset()), u.deltaDebt),
                  Posting(Balance(u.who, coin.CollateralAsset()), 0 - u.deltaCollateral) ]
  {
    ExchangeForPosition(coin, u);
    SetPosition(coin, u);
  }

  /** The change of the position and of the supply, once the ledger has been changed. */
  method SetPosition(coin: Smartcoin, u: Update)
    requires coin.market.AtRest() && coin.Positions() && coin.SupplyIsBacked() && coin.PoolIsSound()
    requires coin.settlementPrice.None? && coin.supply + u.deltaDebt >= 0
    requires if NewDebt(coin.calls, u) == 0 then u.who in coin.calls && NewCollateral(coin.calls, u) == 0
             else NewDebt(coin.calls, u) > 0 && NewCollateral(coin.calls, u) > 0
    requires forall who {:trigger coin.CoreGap(who)} :: coin.CoreGap(who)
               == if coin.CollateralAsset() != CORE then 0
                  else CollateralOf(coin.calls, who) + if who == u.who then u.deltaCollateral else 0
    modifies coin`calls, coin`supply
    ensures coin.Coherent()
    ensures coin.calls == Updated(old(coin.calls), u) && coin.supply == old(coin.supply) + u.deltaDebt
    ensures forall a :: coin.Total(a) == old(coin.Total(a))
              + (if a == coin.CollateralAsset() then u.deltaCollateral else 0)
              - if a == coin.DebtAsset() then u.deltaDebt else 0
  {
    UpdatedTotals(coin.calls, u);
    coin.supply := coin.supply + u.deltaDebt;
    coin.calls := Updated(coin.calls, u);
  }

  /** The change of the ledger alone. */
  method ExchangeForPosition(coin: Smartcoin, u: Update)
    requires coin.market.AtRest()
    requires AmountIn(coin.market.ledger.funds, Balance(u.who, coin.DebtAsset())) + u.deltaDebt >= 0
    requires AmountIn(coin.market.ledger.funds, Balance(u.who, coin.CollateralAsset())) >= u.deltaCollateral
    modifies coin.market.ledger
    ensures coin.market.AtRest()
    ensures coin.market.ledger.journal == old(coin.market.ledger.journal)
              + [ Posting(Balance(u.who, coin.DebtAsset()), u.deltaDebt),
                  Posting(Balance(u.who, coin.CollateralAsset()), 0 - u.deltaCollateral) ]
    ensures forall a :: coin.market.Wealth(a) == old(coin.market.Wealth(a))
              + (if a == coin.DebtAsset() then u.deltaDebt else 0)
              - (if a == coin.CollateralAsset() then u.deltaCollateral else 0)
    ensures forall who :: coin.CoreGap(who) == old(coin.CoreGap(who))
              + if who == u.who && coin.CollateralAsset() == CORE then u.deltaCollateral else 0
  {
    var ok := coin.market.Post(Balance(u.who, coin.DebtAsset()), u.deltaDebt);
    ok := coin.market.Post(Balance(u.who, coin.CollateralAsset()), 0 - u.deltaCollateral);
    if coin.CollateralAsset() == CORE {
      coin.market.ledger.AdjustCoreInOrders(u.who, u.deltaCollateral);
    }
    forall who
      ensures coin.CoreGap(who)
                == old(coin.CoreGap(who))
                   + if who == u.who && coin.CollateralAsset() == CORE then u.deltaCollateral else 0
    {
    }
  }

  /** The response method may be changed while nothing is left of individual settlements. */
  predicate ResponseChangeable(coin: Smartcoin)
    reads coin`settlementPrice, coin`response, coin`pool, coin`debtOrder
  {
    && coin.settlementPrice.None?
    && (coin.response == SettleToFund ==> coin.pool.debt == 0)
    && (coin.response == SettleToOrder ==> coin.debtOrder.None?)
  }

  method SetResponse(coin: Smartcoin, response: Response) returns (ok: bool)
    requires coin.Valid()
    modifies coin`response
    ensures coin.Valid()
    ensures forall a :: coin.Total(a) == old(coin.Total(a))
    ensures ok <==> response == old(coin.response) || (coin.settlementPrice.None? && coin.pool == Pool(0, 0))
    ensures coin.response == if ok then response else old(coin.response)
  {
    ok := response == coin.response || ResponseChangeable(coin);
    if ok {
      coin.response := response;
    }
  }
}
