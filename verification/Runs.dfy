/** Whole runs of a smartcoin and its market: any steps, in any order, by anybody. */
module Runs {
  import opened Options
  import opened Prices
  import opened Sums
  import opened Ledgers
  import opened LimitMatching
  import opened LimitMarkets
  import opened MaxDebtToCover
  import opened SettledDebt
  import opened GlobalSettlement
  import opened Smartcoins
  import opened FeedPolicy
  import AS = AssetSettle
  import FS = ForceSettlement
  import MC = MarginCalls
  import GS = GlobalSettling
  import CB = CollateralBids
  import DP = DebtPositions

  /** The steps of limit orders and positions, of settle orders and margin calls, and of the
      settlement pool and fund. A step whose conditions are not met does nothing. */
  datatype OrderStep =
    | CreateOrder(side: nat, order: Order)
    | CancelOrder(side: nat, i: nat)
    | UpdatePosition(update: DP.Update, rules: DP.Rules)
    | ChooseResponse(response: Response)

  datatype MatchStep =
    | ForceSettle(id: nat, who: Account, terms: FS.Terms, settleFeePercent: Percent)
    | CallSettle(id: nat, who: Account, feed: Feed)
    | CallLimit(i: nat, who: Account, feed: Feed)
    | SettlePosition(who: Account, feed: Feed)
    | RepriceDebtOrder(feed: Feed)
    | TakeDebtOrder(i: nat)
    | CheckDebtOrder

  datatype FundStep =
    | Settle(who: Account, amount: nat, feed: Option<Feed>, canForceSettle: bool, id: nat)
    | SettleGlobally(price: Price, check: Option<GS.MarginCheck>)
    | PlaceBid(who: Account, additional: nat, debt: nat)
    | ProcessBids(debtPrice: Option<Price>, icr: nat)
    | Revive(issuer: Account)

  datatype Step = Orders(o: OrderStep) | Matches(m: MatchStep) | Funds(f: FundStep)

  /** Limit orders are created with fresh ids, for what they have for sale. */
  predicate GoodOrder(orders: seq<Order>, o: Order) {
    && o.forSale > 0 && o.price.base == o.forSale && o.price.quote > 0
    && (o.deferredPaidFee > 0 ==> o.deferredFee > 0 && o.deferredPaidAsset != CORE)
    && (forall j :: 0 <= j < |orders| ==> orders[j].id < o.id)
  }

  /** A position in margin call territory that the black swan check left alone. */
  predicate CanBeCalled(c: Call, feed: Feed) {
    && GoodFeed(feed)
    && AtMost(Collateralization(c), MaintenanceCollateralization(feed))
    && AtMost(FS.SwanPrice(c), MaxShortSqueezePrice(feed))
  }

  /** A coin with debt positions and nothing else: no settle order, no settlement pool or order,
      no bid, and no global settlement. */
  predicate Unsettled(coin: Smartcoin)
    reads coin
  {
    && coin.settlementPrice.None? && coin.settlementFund == 0
    && coin.settles == map[] && coin.pool == Pool(0, 0) && coin.debtOrder.None? && coin.bids == []
  }

  /** A prediction market: every position has as much collateral as debt, and nothing else is owed or
      waits to be settled. */
  ghost predicate Paired(coin: Smartcoin)
    reads coin
  {
    && coin.isPredictionMarket && coin.settles == map[] && coin.pool == Pool(0, 0) && coin.debtOrder.None?
    && forall who {:trigger PairedAt(coin.calls, who)} :: who in coin.calls ==> PairedAt(coin.calls, who)
  }

  predicate PairedAt(calls: Calls, who: Account)
    requires who in calls
  {
    calls[who].collateral == calls[who].debt
  }

  /** So the collateral of all positions is exactly the supply. */
  lemma {:induction false} PairedTotals(coin: Smartcoin)
    requires coin.Valid() && Paired(coin) && coin.settlementPrice.None?
    ensures Collaterals(coin.calls) == Debts(coin.calls) == coin.supply
  {
    PairedSums(coin.calls);
  }

  lemma {:induction false} PairedSums(calls: Calls)
    requires forall who {:trigger PairedAt(calls, who)} :: who in calls ==> PairedAt(calls, who)
    ensures Collaterals(calls) == Debts(calls)
    decreases |calls|
  {
    CallsBound(calls);
    if calls != map[] {
      var who :| who in calls;
      CallsRemove(calls, who);
      assert PairedAt(calls, who);
      forall a | a in calls - {who}
        ensures PairedAt(calls - {who}, a)
      {
        assert PairedAt(calls, a);
      }
      PairedSums(calls - {who});
    }
  }

  /** An update that changes collateral and debt alike keeps that. */
  lemma {:induction false} UpdateKeepsPairs(calls: Calls, u: DP.Update)
    requires forall who {:trigger PairedAt(calls, who)} :: who in calls ==> PairedAt(calls, who)
    requires u.deltaCollateral == u.deltaDebt && DP.NewDebt(calls, u) >= 0 && DP.NewCollateral(calls, u) >= 0
    ensures var now := DP.Updated(calls, u); forall who {:trigger PairedAt(now, who)} ::
                who in now ==> PairedAt(now, who)
  {
    var now := DP.Updated(calls, u);
    assert u.who in calls ==> PairedAt(calls, u.who);
    forall who | who in now
      ensures PairedAt(now, who)
    {
      if who != u.who {
        assert PairedAt(calls, who);
      }
    }
  }

  method PlaceOrder(coin: Smartcoin, side: nat, o: Order)
    requires coin.Valid() && side < 2 && GoodOrder(coin.market.book[side], o)
    modifies coin.market`book, coin.market.ledger
    ensures coin.Valid() && forall a :: coin.Total(a) == old(coin.Total(a))
  {
    var ok, gone := coin.market.CreateLimitOrder(side, o);
    forall who
      ensures coin.CoreGap(who) == old(coin.CoreGap(who))
    {
    }
  }

  method WithdrawOrder(coin: Smartcoin, side: nat, i: nat)
    requires coin.Valid() && side < 2 && i < |coin.market.book[side]|
    modifies coin.market`book, coin.market.ledger
    ensures coin.Valid() && forall a :: coin.Total(a) == old(coin.Total(a))
  {
    coin.market.CancelByOwner(side, i);
    forall who
      ensures coin.CoreGap(who) == old(coin.CoreGap(who))
    {
    }
  }

  method TakeOrderStep(coin: Smartcoin, step: OrderStep)
    requires coin.Valid()
    modifies coin, coin.market`book, coin.market.ledger
    ensures coin.Valid() && forall a :: coin.Total(a) == old(coin.Total(a))
    ensures old(Unsettled(coin)) ==> Unsettled(coin)
    ensures old(Paired(coin)) ==> Paired(coin)
  {
    match step {
      case CreateOrder(side, o) =>
        if side < 2 && GoodOrder(coin.market.book[side], o) {
          PlaceOrder(coin, side, o);
        }
      case CancelOrder(side, i) =>
        if side < 2 && i < |coin.market.book[side]| {
          WithdrawOrder(coin, side, i);
        }
      case UpdatePosition(update, rules) =>
        if coin.settlementPrice.None? {
          ghost var calls := coin.calls;
          var ok := DP.UpdateCallOrder(coin, update, rules);
          if ok && old(Paired(coin)) {
            UpdateKeepsPairs(calls, update);
          }
        }
      case ChooseResponse(response) =>
        var ok := DP.SetResponse(coin, response);
    }
  }

  /** Whether `check_call_orders` does anything. */
  predicate MakesMarginCalls(coin: Smartcoin, policy: Policy) {
    !policy.marginCallsDisabled && !coin.isPredictionMarket
  }

  /** Margin calls and individual settlements are what `check_call_orders` does, which the policy
      switches off, and which leaves prediction markets alone. */
  method TakeMatchStep(coin: Smartcoin, policy: Policy, step: MatchStep)
    requires coin.Valid() && coin.settlementPrice.None?
    modifies coin, coin.market`book, coin.market.ledger
    ensures coin.Valid() && forall a :: coin.Total(a) == old(coin.Total(a))
    ensures policy.marginCallsDisabled && old(Unsettled(coin)) ==> Unsettled(coin)
    ensures old(Paired(coin)) ==> Paired(coin)
  {
    match step {
      case ForceSettle(id, who, terms, settleFeePercent) =>
        if id in coin.settles && who in coin.calls && FS.GoodTerms(terms) && FS.Callable(coin.calls[who], terms) {
          ghost var o;
          var covered;
          covered, o := MC.MatchImpl(coin, id, who, terms, false, settleFeePercent);
        }
      case CallSettle(id, who, feed) =>
        if MakesMarginCalls(coin, policy) && id in coin.settles && who in coin.calls && GoodFeed(feed)
           && AtMost(Collateralization(coin.calls[who]), MaintenanceCollateralization(feed)) {
          var covered;
          ghost var limit;
          covered, limit := MC.MatchMarginCall(coin, id, who, feed, false);
        }
      case CallLimit(i, who, feed) =>
        if MakesMarginCalls(coin, policy) && i < |coin.market.book[0]| && who in coin.calls
            && CanBeCalled(coin.calls[who], feed)
           && AtMost(MarginCallOrderPrice(feed), coin.market.book[0][i].price) {
          ghost var x, toBuy := MC.MatchLimitCall(coin, i, who, feed);
        }
      case SettlePosition(who, feed) =>
        if MakesMarginCalls(coin, policy) && who in coin.calls && GoodFeed(feed)
           && (coin.response == SettleToFund || coin.response == SettleToOrder) {
          coin.IndividuallySettle(who, feed);
        }
      case RepriceDebtOrder(feed) =>
        if GoodFeed(feed) {
          coin.UpdateSettledDebtOrder(feed);
        }
      case TakeDebtOrder(i) =>
        if coin.debtOrder.Some? && i < |coin.market.book[0]|
            && AtMost(Inverse(coin.market.book[0][i].price), coin.debtOrder.value.price) {
          var t := coin.MatchLimitSettledDebt(i);
        }
      case CheckDebtOrder =>
        coin.CheckSettledDebtOrder();
    }
  }

  method TakeFundStep(coin: Smartcoin, policy: Policy, step: FundStep)
    requires coin.Valid()
    modifies coin, coin.market`book, coin.market.ledger
    ensures coin.Valid() && forall a :: coin.Total(a) == old(coin.Total(a))
    ensures policy.settlementsDisabled && old(Unsettled(coin)) ==> Unsettled(coin)
    ensures old(Paired(coin)) ==> Paired(coin)
  {
    match step {
      case Settle(who, amount, feed, canForceSettle, id) =>
        if amount > 0 && (feed.Some? ==> GoodFeed(feed.value)) && id !in coin.settles {
          var ok, pays, gets, rest, run := AS.Settle(coin, policy, who, amount, feed, canForceSettle, id);
        }
      case SettleGlobally(price, check) =>
        if !policy.settlementsDisabled && coin.settlementPrice.None? && coin.supply > 0 && GS.GoodCheck(price, check)
            && (!coin.isPredictionMarket ==> price.quote > 0) {
          GS.GloballySettle(coin, price, check);
        }
      case PlaceBid(who, additional, debt) =>
        if coin.settlementPrice.Some? && !coin.isPredictionMarket && (debt > 0 ==> additional > 0) {
          var ok := CB.BidCollateral(coin, who, additional, debt);
        }
      case ProcessBids(debtPrice, icr) =>
        if coin.settlementPrice.Some? && (debtPrice.Some? ==> Positive(debtPrice.value) && icr > 0) {
          var revived;
          ghost var n;
          revived, n := CB.ProcessBids(coin, debtPrice, icr);
        }
      case Revive(issuer) =>
        if coin.settlementPrice.Some? && !coin.isPredictionMarket {
          var ok := CB.ReviveBitasset(coin, issuer);
        }
    }
  }

  /** After every run, under any policy, every unit of the smartcoin's supply is in somebody's hands,
      and it is owed by a position or by the settlement pool, or paid for by the settlement fund; and
      no step creates or destroys any other asset. A policy that switches settlements and margin
      calls off keeps a coin that has debt positions and nothing else like that. In a prediction
      market every position keeps as much collateral as debt, until it is settled. */
  method Run(coin: Smartcoin, policy: Policy, steps: seq<Step>)
    requires coin.Valid()
    modifies coin, coin.market`book, coin.market.ledger
    ensures coin.Valid() && forall a :: coin.Total(a) == old(coin.Total(a))
    ensures coin.settlementPrice.None? ==> coin.supply == Debts(coin.calls) + coin.pool.debt && coin.settlementFund == 0
    ensures coin.settlementPrice.Some? ==>
      && coin.calls == map[] && coin.pool == Pool(0, 0)
      && coin.supply * coin.settlementPrice.value.quote <= coin.settlementFund * coin.settlementPrice.value.base
    ensures coin.debtOrder.Some? ==> coin.response == SettleToOrder && Backed(coin.pool, coin.debtOrder.value)
    ensures coin.response == SettleToOrder && coin.debtOrder.None? ==> coin.pool == Pool(0, 0)
    ensures coin.CoreIsExact()
    ensures policy.settlementsDisabled && policy.marginCallsDisabled && old(Unsettled(coin)) ==> Unsettled(coin)
    ensures old(Paired(coin)) ==> Paired(coin)
    ensures old(Paired(coin)) && coin.settlementPrice.None? ==> Collaterals(coin.calls) == coin.supply
  {
    for k := 0 to |steps|
      invariant coin.Valid() && forall a :: coin.Total(a) == old(coin.Total(a))
      invariant policy.settlementsDisabled && policy.marginCallsDisabled && old(Unsettled(coin)) ==> Unsettled(coin)
      invariant old(Paired(coin)) ==> Paired(coin)
    {
      match steps[k] {
        case Orders(o) => TakeOrderStep(coin, o);
        case Matches(m) =>
          if coin.settlementPrice.None? {
            TakeMatchStep(coin, policy, m);
          }
        case Funds(f) => TakeFundStep(coin, policy, f);
      }
    }
    if old(Paired(coin)) && coin.settlementPrice.None? {
      PairedTotals(coin);
    }
  }

  /** What that means on this chain: a coin that is no prediction market is never settled, and its
      supply is what its positions owe, to the unit. */
  method RunUnderPolicy(coin: Smartcoin, steps: seq<Step>)
    requires coin.Valid() && Unsettled(coin) && ManagesMarginPositions(coin.isPredictionMarket)
    modifies coin, coin.market`book, coin.market.ledger
    ensures coin.Valid() && Unsettled(coin) && coin.supply == Debts(coin.calls)
    ensures coin.CoreIsExact() && forall a :: coin.Total(a) == old(coin.Total(a))
  {
    Run(coin, PolicyOf(coin.isPredictionMarket), steps);
  }
}
