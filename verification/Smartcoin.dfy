/** A smartcoin: its debt positions, its settlement pool and fund, and the steps that change
    them, together with the limit order market of the coin against its backing asset. */
module Smartcoins {
  import opened Options
  import opened Amounts
  import opened Rounding
  import opened Prices
  import opened Sums
  import opened Ledgers
  import opened LimitMatching
  import opened LimitMarkets
  import opened MaxDebtToCover
  import opened SettledDebt
  import opened GlobalSettlement
  import FS = ForceSettlement

  /** A force-settlement order waiting to be matched. */
  datatype Settle = Settle(owner: Account, balance: nat)

  /** The black swan response method. */
  datatype Response = GlobalSettlementResponse | NoSettlement | SettleToFund | SettleToOrder

  /** The price feed: prices are debt per collateral, ratios have denominator 1000. */
  datatype Feed = Feed(current: Price, median: Price, mcr: nat, mssr: nat, mcfr: nat)

  type Calls = map<Account, Call>

  ghost function Debts(calls: Calls): int {
    Sum(calls, (who: Account, c: Call) => c.debt)
  }

  ghost function Collaterals(calls: Calls): int {
    Sum(calls, (who: Account, c: Call) => c.collateral)
  }

  ghost function Balances(settles: map<nat, Settle>): int {
    Sum(settles, (id: nat, s: Settle) => s.balance)
  }

  ghost function Additional(bids: seq<Bid>): int {
    SumSeq(bids, (b: Bid) => b.additional)
  }

  function CollateralOf(calls: Calls, who: Account): nat {
    if who in calls then calls[who].collateral else 0
  }

  lemma CallsPut(calls: Calls, who: Account, c: Call)
    ensures Debts(calls[who := c]) == Debts(calls) - (if who in calls then calls[who].debt else 0) + c.debt
    ensures Collaterals(calls[who := c]) == Collaterals(calls) - CollateralOf(calls, who) + c.collateral
  {
    SumPut(calls, (who: Account, c: Call) => c.debt, who, c);
    SumPut(calls, (who: Account, c: Call) => c.collateral, who, c);
  }

  lemma CallsRemove(calls: Calls, who: Account)
    requires who in calls
    ensures Debts(calls - {who}) == Debts(calls) - calls[who].debt
    ensures Collaterals(calls - {who}) == Collaterals(calls) - calls[who].collateral
  {
    SumRemove(calls, (who: Account, c: Call) => c.debt, who);
    SumRemove(calls, (who: Account, c: Call) => c.collateral, who);
  }

  lemma CallsBound(calls: Calls)
    ensures forall who ::
      who in calls ==> calls[who].debt <= Debts(calls) && calls[who].collateral <= Collaterals(calls)
    ensures Debts(calls) >= 0 && Collaterals(calls) >= 0
    ensures calls == map[] ==> Debts(calls) == 0 && Collaterals(calls) == 0
  {
    SumNonNegative(calls, (who: Account, c: Call) => c.debt);
    SumNonNegative(calls, (who: Account, c: Call) => c.collateral);
  }

  lemma DebtsNonNegative(calls: Calls)
    ensures Debts(calls) >= 0
  {
    CallsBound(calls);
  }

  /** A debt position after one fill. */
  function AfterCallFill(calls: Calls, who: Account, pays: nat, receives: nat): Calls
    requires who in calls && pays <= calls[who].collateral && receives <= calls[who].debt
  {
    var c := calls[who];
    if receives == c.debt then calls - {who}
    else calls[who := c.(collateral := c.collateral - pays, debt := c.debt - receives)]
  }

  /** Collateral that goes back to the owner of a position that is closed. */
  function Freed(calls: Calls, who: Account, pays: nat, receives: nat): nat
    requires who in calls && pays <= calls[who].collateral
  {
    if receives == calls[who].debt then calls[who].collateral - pays else 0
  }

  lemma AfterCallFillTotals(calls: Calls, who: Account, pays: nat, receives: nat)
    requires who in calls && pays <= calls[who].collateral && receives <= calls[who].debt
    ensures Debts(AfterCallFill(calls, who, pays, receives)) == Debts(calls) - receives
    ensures Collaterals(AfterCallFill(calls, who, pays, receives))
            == Collaterals(calls) - pays - Freed(calls, who, pays, receives)
  {
    CallsRemove(calls, who);
    CallsPut(calls, who, calls[who].(collateral := calls[who].collateral - pays, debt := calls[who].debt - receives));
  }

  // ----- the parameters derived from a feed -----

  /** MSSR - MCFR, at least 1.00. */
  function MarginCallOrderRatio(feed: Feed): nat {
    var n := if feed.mcfr < feed.mssr then feed.mssr - feed.mcfr else 1000;
    if n < 1000 then 1000 else n
  }

  predicate GoodFeed(feed: Feed) {
    && Positive(feed.current) && Positive(feed.median)
    && AtMost(feed.median, feed.current)
    && feed.mcr > 1000 && feed.mssr > 1000
  }

  /** The price at which margin calls sell collateral (MCOP), debt per collateral. */
  function MarginCallOrderPrice(feed: Feed): Price
    requires GoodFeed(feed)
  {
    Scale(feed.current, 1000, MarginCallOrderRatio(feed))
  }

  /** The price at which they relinquish it (MSSP), debt per collateral. */
  function MaxShortSqueezePrice(feed: Feed): Price
    requires GoodFeed(feed)
  {
    Scale(feed.current, 1000, feed.mssr)
  }

  /** Positions with no more collateral per debt than this are margin called. */
  function MaintenanceCollateralization(feed: Feed): Price
    requires GoodFeed(feed)
  {
    Scale(Inverse(feed.current), feed.mcr, 1000)
  }

  /** What follows from a feed. The margin call order ratio is the squeeze ratio less the margin call
      fee, or one if that is more. At the margin call order price a debt costs that ratio times what
      the feed says, and at the maximum short squeeze price the whole squeeze ratio. */
  lemma FeedPricesMean(feed: Feed, debt: nat)
    requires GoodFeed(feed)
    ensures var ratio, p := MarginCallOrderRatio(feed), feed.current;
            && ratio >= 1000 && ratio + feed.mcfr >= feed.mssr && (ratio == 1000 || ratio + feed.mcfr == feed.mssr)
            && (var cost := Convert(debt, MarginCallOrderPrice(feed));
                cost * (1000 * p.base) <= ratio * (debt * p.quote) < (cost + 1) * (1000 * p.base))
            && (var cost := Convert(debt, MaxShortSqueezePrice(feed));
                cost * (1000 * p.base) <= feed.mssr * (debt * p.quote) < (cost + 1) * (1000 * p.base))
  {
    CostAtScaled(debt, feed.current, MarginCallOrderRatio(feed));
    CostAtScaled(debt, feed.current, feed.mssr);
  }

  lemma CostAtScaled(debt: nat, p: Price, ratio: nat)
    requires Positive(p) && ratio > 0
    ensures var cost := Convert(debt, Scale(p, 1000, ratio));
            cost * (1000 * p.base) <= ratio * (debt * p.quote) < (cost + 1) * (1000 * p.base)
  {
    var q := Scale(p, 1000, ratio);
    var cost := Convert(debt, q);
    ConvertGalois(debt, q, cost);
    ConvertGalois(debt, q, cost + 1);
    assert debt * q.quote == ratio * (debt * p.quote);
    assert q.base == 1000 * p.base;
  }

  /** A position is in margin call territory when its collateral is worth no more than the
      maintenance ratio times its debt. */
  lemma CalledMeans(call: Call, feed: Feed)
    requires GoodFeed(feed)
    ensures AtMost(Collateralization(call), MaintenanceCollateralization(feed))
            <==> 1000 * (call.collateral * feed.current.base) <= feed.mcr * (call.debt * feed.current.quote)
  {
    var m := MaintenanceCollateralization(feed);
    assert call.collateral * m.quote == 1000 * (call.collateral * feed.current.base);
    assert m.base * call.debt == feed.mcr * (call.debt * feed.current.quote);
  }

  /** How the debt order is priced from the feed: at the margin call order price if the fund
      can pay that, and otherwise so as to sell the whole fund for the whole debt. A converted
      amount beyond the largest share supply counts as more than the fund has. */
  function PricedOrder(pool: Pool, feed: Feed): DebtOrder
    requires GoodFeed(feed) && pool.debt > 0
  {
    var price := Inverse(MarginCallOrderPrice(feed));
    var forSale := ConvertUp(pool.debt, Inverse(price));
    if forSale <= MAX_SHARE_SUPPLY && forSale <= pool.fund then DebtOrder(forSale, price)
    else DebtOrder(pool.fund, Price(pool.fund, pool.debt))
  }

  /** The order asks for what the whole debt is worth at the margin call order price, rounded up, if
      the fund has so much, and there may be so much of an asset; and else for the whole fund. */
  lemma PricedOrderIsExact(pool: Pool, feed: Feed)
    requires GoodFeed(feed) && pool.debt > 0
    ensures var o, p := PricedOrder(pool, feed), MarginCallOrderPrice(feed);
            if pool.debt * p.quote <= Min(pool.fund, MAX_SHARE_SUPPLY) * p.base then
              && o.price == Price(p.quote, p.base)
              && (o.forSale - 1) * p.base < pool.debt * p.quote <= o.forSale * p.base
            else
              o == DebtOrder(pool.fund, Price(pool.fund, pool.debt))
  {
    var p := MarginCallOrderPrice(feed);
    ConvertUpGalois(pool.debt, p, pool.fund);
    ConvertUpGalois(pool.debt, p, MAX_SHARE_SUPPLY);
    ConvertUpGalois(pool.debt, p, ConvertUp(pool.debt, p));
    ConvertUpGalois(pool.debt, p, ConvertUp(pool.debt, p) - 1);
  }

  /** Either way the order is backed by the pool. */
  lemma PricedOrderIsBacked(pool: Pool, feed: Feed)
    requires GoodFeed(feed) && pool.debt > 0 && pool.fund > 0
    ensures Backed(pool, PricedOrder(pool, feed))
  {
    WholePoolIsBacked(pool);
  }

  lemma WholePoolIsBacked(pool: Pool)
    requires pool.debt > 0 && pool.fund > 0
    ensures Backed(pool, DebtOrder(pool.fund, Price(pool.fund, pool.debt)))
  {
    var p := Price(pool.debt, pool.fund);
    ConvertUpGalois(pool.debt, p, pool.fund);
    ConvertUpGalois(pool.debt, p, pool.fund - 1);
    MulLt(pool.fund - 1, pool.fund, pool.debt);
  }

  /** The pool and its order on one side, the limit orders that offer the smartcoin on the other, and
      what was posted between them. */
  datatype DebtSide = DebtSide(pool: Pool, order: Option<DebtOrder>, orders: seq<Order>, journal: seq<Posting>)

  /** The book's side after a fill of one of its orders, which goes when it is filled or dust. */
  function BookWithout(orders: seq<Order>, i: nat, pays: nat): seq<Order>
    requires i < |orders| && pays <= orders[i].forSale && Positive(orders[i].price)
  {
    if FillRemoves(orders[i], pays, true) then Without(orders, i) else orders[i := AfterFill(orders[i], pays)]
  }

  class Smartcoin {
    const market: LimitMarket
    const isPredictionMarket: bool

    var calls: Calls
    var settles: map<nat, Settle>
    /** Collateral bids, best first. */
    var bids: seq<Bid>
    var supply: nat
    var response: Response
    /** individual_settlement_debt and individual_settlement_fund */
    var pool: Pool
    var debtOrder: Option<DebtOrder>
    /** Set while the coin is globally settled. */
    var settlementPrice: Option<Price>
    var settlementFund: nat

    function DebtAsset(): Asset
      requires |market.assets| == 2
    {
      market.assets[0]
    }

    function CollateralAsset(): Asset
      requires |market.assets| == 2
    {
      market.assets[1]
    }

    /** All of an asset in the whole system, except that the smartcoin itself is counted
        relative to its supply. */
    ghost function Total(asset: Asset): int
      requires market.Shape()
      reads this, market`book, market.ledger`funds
    {
      market.Wealth(asset)
      + (if asset == DebtAsset() then Balances(settles) - supply else 0)
      + (if asset == CollateralAsset() then Collaterals(calls) + pool.fund + settlementFund + Additional(bids) else 0)
    }

    /** total_core_in_orders minus the CORE in limit orders. */
    ghost function CoreGap(who: Account): int
      requires market.Shape()
      reads market`book, market.ledger`coreInOrders
    {
      market.ledger.CoreInOrders(who) - market.CoreForSale(who)
    }

    /** The cached CORE in orders is exact: limit orders, and collateral of debt positions. */
    ghost predicate CoreIsExact()
      requires market.Shape()
      reads this`calls, market`book, market.ledger`coreInOrders
    {
      forall who {:trigger CoreGap(who)} ::
        CoreGap(who) == if CollateralAsset() == CORE then CollateralOf(calls, who) else 0
    }

    ghost predicate Positions()
      reads this`calls, this`settles, this`bids
    {
      && (forall who :: who in calls ==> calls[who].debt > 0 && calls[who].collateral > 0)
      && (forall id :: id in settles ==> settles[id].balance > 0)
      && GoodBids(bids)
    }

    /** The supply is what is owed; or, when globally settled, what the fund pays for. */
    ghost predicate SupplyIsBacked()
      reads this`calls, this`supply, this`pool, this`settlementPrice, this`settlementFund, this`bids
    {
      match settlementPrice
      case None => supply == Debts(calls) + pool.debt && settlementFund == 0 && bids == []
      case Some(p) =>
        && calls == map[] && pool == Pool(0, 0)
        && Funded(supply, settlementFund, p)
        && (!isPredictionMarket ==> p.quote > 0)
    }

    ghost predicate PoolIsSound()
      reads this`pool, this`debtOrder, this`response
    {
      match response
      case SettleToOrder => if debtOrder.Some? then Backed(pool, debtOrder.value) else pool == Pool(0, 0)
      case SettleToFund => debtOrder.None? && (pool.debt == 0 <==> pool.fund == 0)
      case _ => debtOrder.None? && pool == Pool(0, 0)
    }

    /** What every internal step keeps. */
    ghost predicate Coherent()
      reads this, market`book, market.ledger
    {
      && market.AtRest()
      && Positions()
      && SupplyIsBacked()
      && PoolIsSound()
      && CoreIsExact()
    }

    /** The invariant of every run: besides, every unit of the supply is held by somebody. */
    ghost predicate Valid()
      reads this, market`book, market.ledger
    {
      Coherent() && Total(DebtAsset()) == 0
    }

    constructor (market: LimitMarket, isPredictionMarket: bool)
      requires market.AtRest()
      requires market.Wealth(market.assets[0]) == 0
      requires forall who :: market.ledger.CoreInOrders(who) == market.CoreForSale(who)
      ensures Valid()
      ensures this.market == market && this.isPredictionMarket == isPredictionMarket
      ensures supply == 0 && settlementPrice == None && settlementFund == 0 && calls == map[] && settles == map[]
      ensures pool == Pool(0, 0) && debtOrder == None && bids == []
    {
      this.market := market;
      this.isPredictionMarket := isPredictionMarket;
      calls, settles, bids, supply := map[], map[], [], 0;
      response, pool, debtOrder := GlobalSettlementResponse, Pool(0, 0), None;
      settlementPrice, settlementFund := None, 0;
    }

    /** `fill_call_order`: pays collateral and receives debt; a position whose debt is paid is
        removed and the rest of its collateral given back. */
    method FillCallOrder(who: Account, pays: nat, receives: nat, marginCallFee: nat, reduceSupply: bool)
      returns (closed: bool)
      requires market.AtRest() && who in calls
      requires pays <= calls[who].collateral && receives <= calls[who].debt
      requires reduceSupply ==> receives <= supply
      modifies this`calls, this`supply, market.ledger
      ensures market.AtRest()
      ensures closed == (receives == old(calls[who].debt))
      ensures calls == old(AfterCallFill(calls, who, pays, receives))
      ensures supply == old(supply) - if reduceSupply then receives else 0
      ensures market.ledger.journal
                == old(market.ledger.journal + ClosingPostings(who, Freed(calls, who, pays, receives), marginCallFee))
      ensures forall a :: market.Wealth(a) == old(market.Wealth(a))
                + if a == CollateralAsset() then old(Freed(calls, who, pays, receives)) + marginCallFee else 0
      ensures forall a :: CoreGap(a) == old(CoreGap(a))
                - if CollateralAsset() == CORE && a == who then pays + old(Freed(calls, who, pays, receives)) else 0
    {
      var c := calls[who];
      closed := receives == c.debt;
      var freed := if closed then c.collateral - pays else 0;
      if closed {
        calls := calls - {who};
      } else {
        calls := calls[who := c.(debt := c.debt - receives, collateral := c.collateral - pays)];
      }
      if reduceSupply {
        supply := supply - receives;
      }
      PayBorrower(who, pays, freed, marginCallFee);
    }

    function ClosingPostings(who: Account, freed: nat, marginCallFee: nat): seq<Posting>
      requires |market.assets| == 2
    {
      [ Posting(Balance(who, CollateralAsset()), freed),
        Posting(CollateralFees(DebtAsset(), CollateralAsset()), marginCallFee) ]
    }

    /** The part of a call order fill that changes the ledger. */
    method PayBorrower(who: Account, pays: nat, freed: nat, marginCallFee: nat)
      requires market.AtRest()
      modifies market.ledger
      ensures market.AtRest()
      ensures market.ledger.journal == old(market.ledger.journal) + ClosingPostings(who, freed, marginCallFee)
      ensures forall a ::
        market.Wealth(a) == old(market.Wealth(a)) + if a == CollateralAsset() then freed + marginCallFee else 0
      ensures forall a ::
        CoreGap(a) == old(CoreGap(a)) - if CollateralAsset() == CORE && a == who then pays + freed else 0
    {
      market.Give(Balance(who, CollateralAsset()), freed);
      if CollateralAsset() == CORE {
        market.ledger.AdjustCoreInOrders(who, 0 - pays - freed);
      }
      market.Give(CollateralFees(DebtAsset(), CollateralAsset()), marginCallFee);
    }

    /** A position covers part or all of its debt with debt that its counterparty gives up;
        the counterparty gets what the position pays, less the fee. */
    method CoverDebt(who: Account, pays: nat, receives: nat, marginCallFee: nat)
      requires Coherent() && settlementPrice.None? && who in calls
      requires 0 < receives <= calls[who].debt && marginCallFee <= pays <= calls[who].collateral
      requires receives < calls[who].debt ==> pays < calls[who].collateral
      modifies this`calls, this`supply, market.ledger
      ensures Coherent()
      ensures calls == old(AfterCallFill(calls, who, pays, receives)) && supply == old(supply) - receives
      ensures market.ledger.journal
                == old(market.ledger.journal + ClosingPostings(who, Freed(calls, who, pays, receives), marginCallFee))
      ensures forall a :: Total(a) == old(Total(a))
                + (if a == DebtAsset() then receives else 0)
                - (if a == CollateralAsset() then pays - marginCallFee else 0)
    {
      AfterCallFillTotals(calls, who, pays, receives);
      CallsBound(calls);
      var closed := FillCallOrder(who, pays, receives, marginCallFee, true);
    }

    // ----- individual settlement -----

    /** `individually_settle`: the position is closed, its debt goes to the pool, and so does
        its collateral except for the margin call fee. */
    method IndividuallySettle(who: Account, feed: Feed)
      requires Valid() && settlementPrice.None? && (response == SettleToFund || response == SettleToOrder)
      requires who in calls && GoodFeed(feed)
      modifies this`calls, this`supply, this`pool, this`debtOrder, market.ledger
      ensures Valid()
      ensures forall a :: Total(a) == old(Total(a))
      ensures calls == old(calls) - {who} && supply == old(supply)
      ensures var c := old(calls[who]);
              var share := FundReceives(c.collateral, c.debt, MarginCallOrderRatio(feed), feed.mssr);
              && share <= c.collateral
              && pool == Pool(old(pool).debt + c.debt, old(pool).fund + share)
              && market.ledger.journal == old(market.ledger.journal) + ClosingPostings(who, 0, c.collateral - share)
              && (response == SettleToOrder ==>
                    debtOrder == Some(if old(debtOrder).Some? then PricedOrder(pool, feed)
                                      else DebtOrder(share, Price(share, c.debt))))
    {
      var c := calls[who];
      var fundReceives := FundReceives(c.collateral, c.debt, MarginCallOrderRatio(feed), feed.mssr);
      FundReceivesAtMostAll(c.collateral, c.debt, MarginCallOrderRatio(feed), feed.mssr);
      CloseIntoPool(who, fundReceives, feed);
    }

    method CloseIntoPool(who: Account, fundReceives: nat, feed: Feed)
      requires Valid() && settlementPrice.None? && (response == SettleToFund || response == SettleToOrder)
      requires who in calls && 0 < fundReceives <= calls[who].collateral && GoodFeed(feed)
      modifies this`calls, this`supply, this`pool, this`debtOrder, market.ledger
      ensures Valid()
      ensures forall a :: Total(a) == old(Total(a))
      ensures calls == old(calls) - {who} && supply == old(supply)
      ensures pool == Pool(old(pool).debt + old(calls[who]).debt, old(pool).fund + fundReceives)
      ensures market.ledger.journal
                == old(market.ledger.journal + ClosingPostings(who, 0, calls[who].collateral - fundReceives))
      ensures response == SettleToOrder ==>
        debtOrder == Some(if old(debtOrder).Some? then PricedOrder(pool, feed)
                          else DebtOrder(fundReceives, Price(fundReceives, old(calls[who]).debt)))
    {
      var c := calls[who];
      CallsRemove(calls, who);
      AddToPool(c.debt, fundReceives, feed);
      var closed := FillCallOrder(who, c.collateral, c.debt, c.collateral - fundReceives, false);
    }

    /** Debt and collateral enter the pool, and the debt order is created or repriced. */
    method AddToPool(debt: nat, fundReceives: nat, feed: Feed)
      requires PoolIsSound() && (response == SettleToFund || response == SettleToOrder)
      requires debt > 0 && fundReceives > 0 && GoodFeed(feed)
      modifies this`pool, this`debtOrder
      ensures PoolIsSound()
      ensures pool == Pool(old(pool).debt + debt, old(pool).fund + fundReceives)
      ensures response == SettleToOrder ==>
        debtOrder == Some(if old(debtOrder).Some? then PricedOrder(pool, feed)
                          else DebtOrder(fundReceives, Price(fundReceives, debt)))
    {
      pool := Pool(pool.debt + debt, pool.fund + fundReceives);
      if response == SettleToOrder {
        if debtOrder.Some? {
          PricedOrderIsBacked(pool, feed);
          debtOrder := Some(PricedOrder(pool, feed));
        } else {
          WholePoolIsBacked(pool);
          debtOrder := Some(DebtOrder(fundReceives, Price(fundReceives, debt)));
        }
      }
    }

    /** `update_settled_debt_order`: a new feed reprices the debt order. */
    method UpdateSettledDebtOrder(feed: Feed)
      requires Valid() && GoodFeed(feed)
      modifies this`debtOrder
      ensures Valid()
      ensures debtOrder == if old(debtOrder).Some? then Some(PricedOrder(pool, feed)) else None
    {
      if debtOrder.Some? {
        BackedIsFunded(pool, debtOrder.value);
        PricedOrderIsBacked(pool, feed);
        debtOrder := Some(PricedOrder(pool, feed));
      }
    }

    // ----- the settled debt order against limit orders -----

    /** A limit order that sells the smartcoin is filled: the debt it pays and the collateral
        it receives are its counterparty's. */
    method FillLimit(i: nat, pays: nat, receives: nat, cullIfSmall: bool, isMaker: bool) returns (gone: bool)
      requires Coherent() && i < |market.book[0]| && pays <= market.book[0][i].forSale
      modifies market`book, market.ledger
      ensures Coherent()
      ensures gone == FillRemoves(old(market.book[0][i]), pays, true)
      ensures market.book[1] == old(market.book[1])
      ensures market.book[0] == BookWithout(old(market.book[0]), i, pays)
      ensures market.ledger.journal
                == old(market.ledger.journal + market.FillPostings(market.book[0][i], 0, pays, receives, true, isMaker))
      ensures forall a :: Total(a) == old(Total(a))
                + (if a == CollateralAsset() then receives else 0) - (if a == DebtAsset() then pays else 0)
    {
      gone := market.FillAtRest(0, i, pays, receives, cullIfSmall, isMaker);
      forall who
        ensures CoreGap(who) == old(CoreGap(who))
      {
      }
    }

    /** What a trade leaves of the pool and its order, and the collateral fee that is kept. */
    ghost function PoolTraded(side: DebtSide, t: Trade): DebtSide
      requires |market.assets| == 2 && side.order.Some? && Backed(side.pool, side.order.value)
      requires t.Trade? && Fits(side.pool, side.order.value, t.debtReceived, t)
    {
      var order := side.order.value;
      TradeIsPaid(side.pool, order, t.debtReceived, t);
      var pays := if t.closed then side.pool.fund else PoolPays(side.pool, order, t.debtReceived, t.buyerGets);
      var rest := Pool(side.pool.debt - t.debtReceived, side.pool.fund - pays);
      DebtSide(rest, if t.closed then None else Some(order.(forSale := Asked(rest.debt, order))), side.orders,
               side.journal + [Posting(CollateralFees(DebtAsset(), CollateralAsset()), pays - t.buyerGets)])
    }

    /** The pool's side of a trade, common to `match_limit_settled_debt` and
        `match_settled_debt_limit`. The two defensive branches ("Unexpected scene") are never
        taken: the pool pays at least what the buyer gets, and what the order then offers is
        in the fund. */
    method PoolTrades(t: Trade)
      requires Coherent() && settlementPrice.None? && t.Trade? && debtOrder.Some?
      requires Fits(pool, debtOrder.value, t.debtReceived, t)
      modifies this`pool, this`debtOrder, this`supply, market.ledger`funds, market.ledger`journal
      ensures Coherent()
      ensures supply == old(supply) - t.debtReceived
      ensures Sides() == old(PoolTraded(Sides(), t))
      ensures t.buyerGets <= old(pool).fund - pool.fund
      ensures forall a :: Total(a) == old(Total(a))
                + (if a == DebtAsset() then t.debtReceived else 0) - (if a == CollateralAsset() then t.buyerGets else 0)
      ensures if t.closed
                 then debtOrder.None? && pool == Pool(0, 0)
                 else debtOrder.Some? && Backed(pool, debtOrder.value)
    {
      var callPays, left := PoolAmounts(t);
      PoolPaysOut(t.debtReceived, callPays, callPays - t.buyerGets, left);
    }

    /** What the pool pays in a trade, and what its order then offers. */
    method PoolAmounts(t: Trade) returns (callPays: nat, left: Option<DebtOrder>)
      requires t.Trade? && debtOrder.Some? && Backed(pool, debtOrder.value)
      requires Fits(pool, debtOrder.value, t.debtReceived, t)
      ensures callPays == if t.closed then pool.fund else PoolPays(pool, debtOrder.value, t.debtReceived, t.buyerGets)
      ensures t.buyerGets <= callPays <= pool.fund && (callPays < pool.fund <==> !t.closed)
      ensures if t.closed then left == None
              else left == Some(debtOrder.value.(forSale := Asked(pool.debt - t.debtReceived, debtOrder.value)))
                   && Backed(Pool(pool.debt - t.debtReceived, pool.fund - callPays), left.value)
    {
      var order := debtOrder.value;
      BackedIsFunded(pool, order);
      if t.closed {
        FullFillIsCovered(pool, order, t.buyerGets);
        return pool.fund, None;
      }
      PartialFillStaysBacked(pool, order, t.debtReceived, t.buyerGets);
      callPays := if order.forSale != pool.fund then PoolShare(t.debtReceived, pool) else t.buyerGets;
      assert callPays >= t.buyerGets;
      var forSale := Asked(pool.debt - t.debtReceived, order);
      assert forSale <= pool.fund - callPays;
      left := Some(order.(forSale := forSale));
    }

    /** Debt and collateral leave the pool, and the collateral fee is kept. */
    method PoolPaysOut(debtReceived: nat, callPays: nat, fee: nat, left: Option<DebtOrder>)
      requires Coherent() && settlementPrice.None? && response == SettleToOrder
      requires debtReceived <= pool.debt && fee <= callPays <= pool.fund
      requires var rest := Pool(pool.debt - debtReceived, pool.fund - callPays);
               if left.Some? then Backed(rest, left.value) else rest == Pool(0, 0)
      modifies this`pool, this`supply, this`debtOrder, market.ledger`funds, market.ledger`journal
      ensures Coherent()
      ensures supply == old(supply) - debtReceived
      ensures pool == Pool(old(pool).debt - debtReceived, old(pool).fund - callPays) && debtOrder == left
      ensures market.ledger.journal
                == old(market.ledger.journal) + [Posting(CollateralFees(DebtAsset(), CollateralAsset()), fee)]
      ensures forall a :: Total(a) == old(Total(a))
                + (if a == DebtAsset() then debtReceived else 0)
                - (if a == CollateralAsset() then callPays - fee else 0)
    {
      DebtsNonNegative(calls);
      market.Give(CollateralFees(DebtAsset(), CollateralAsset()), fee);
      supply, pool, debtOrder := supply - debtReceived, Pool(pool.debt - debtReceived, pool.fund - callPays), left;
    }

    /** What a trade with the limit order at position `i` leaves of both sides. */
    ghost function Traded(side: DebtSide, i: nat, t: Trade, isMaker: bool): DebtSide
      requires |market.assets| == 2 && side.order.Some? && Backed(side.pool, side.order.value)
      requires i < |side.orders| && Positive(side.orders[i].price)
      requires t.Trade? && Fits(side.pool, side.order.value, side.orders[i].forSale, t)
    {
      var limit, rest := side.orders[i], PoolTraded(side, t);
      rest.(orders := if FillRemoves(limit, t.debtReceived, true) then Without(side.orders, i)
                      else side.orders[i := AfterFill(limit, t.debtReceived)],
            journal := rest.journal + market.FillPostings(limit, 0, t.debtReceived, t.buyerGets, true, isMaker))
    }

    /** The debt order takes limit orders at their own prices, best first, while they offer its
        price. */
    ghost function DebtSweep(side: DebtSide): DebtSide
      requires |market.assets| == 2
      requires side.order.Some? ==> Backed(side.pool, side.order.value) && AllSound(side.orders)
      decreases side.order.Some?, |side.orders|
    {
      if side.order.None? || side.orders == [] || !AtMost(Inverse(side.order.value.price), side.orders[0].price) then
        side
      else
        var order, limit := side.order.value, side.orders[0];
        assert Sound(limit);
        MakerBuysFits(side.pool, order, limit.forSale, limit.price);
        var t := MakerBuys(side.pool, limit.forSale, limit.price);
        TradeIsPaid(side.pool, order, limit.forSale, t);
        assert Convert(limit.forSale, limit.price) > 0;
        DebtSweep(Traded(side, 0, t, true))
    }

    /** Both sides as they are. */
    ghost function Sides(): DebtSide
      reads this`pool, this`debtOrder, market`book, market.ledger`journal
      requires |market.book| == 2
    {
      DebtSide(pool, debtOrder, market.book[0], market.ledger.journal)
    }

    /** Carries out a trade between the pool and the limit order at position `i`. */
    method TradeWithLimit(i: nat, t: Trade, isMaker: bool)
      requires Valid() && settlementPrice.None? && i < |market.book[0]| && debtOrder.Some?
      requires t.Trade? && Fits(pool, debtOrder.value, market.book[0][i].forSale, t)
      requires !t.closed ==> Spent(market.book[0][i], t.debtReceived)
      modifies this`pool, this`debtOrder, this`supply, market`book, market.ledger
      ensures Valid()
      ensures forall a :: Total(a) == old(Total(a))
      ensures supply == old(supply) - t.debtReceived
      ensures Sides() == old(Traded(Sides(), i, t, isMaker)) && market.book[1] == old(market.book[1])
    {
      PoolTrades(t);
      var gone := FillLimit(i, t.debtReceived, t.buyerGets, isMaker || !t.closed, isMaker);
    }

    /** `match_limit_settled_debt`: a limit order that is willing to pay the debt order's price
        takes it, and is culled when the rest of it is dust. */
    method MatchLimitSettledDebt(i: nat) returns (t: Trade)
      requires Valid() && settlementPrice.None? && i < |market.book[0]| && debtOrder.Some?
      requires AtMost(Inverse(market.book[0][i].price), debtOrder.value.price)
      modifies this`pool, this`debtOrder, this`supply, market`book, market.ledger
      ensures Valid()
      ensures forall a :: Total(a) == old(Total(a))
      ensures t == old(TakerBuys(pool, debtOrder.value, market.book[0][i].forSale)) && t.Trade?
      ensures old(Fits(pool, debtOrder.value, market.book[0][i].forSale, t))
      ensures supply == old(supply) - t.debtReceived && pool.debt == old(pool).debt - t.debtReceived
      ensures Sides() == old(Traded(Sides(), i, t, false)) && market.book[1] == old(market.book[1])
      ensures if t.closed
                 then debtOrder.None? && pool == Pool(0, 0)
                 else market.book[0] == old(Without(market.book[0], i))
    {
      t := OfferToTaker(market.book[0][i]);
      TradeWithLimit(i, t, false);
    }

    /** What a limit order that is not dust can take from the debt order. */
    method OfferToTaker(taker: Order) returns (t: Trade)
      requires Sound(taker) && debtOrder.Some? && Backed(pool, debtOrder.value)
      requires AtMost(Inverse(taker.price), debtOrder.value.price)
      ensures t.Trade? && t == TakerBuys(pool, debtOrder.value, taker.forSale)
      ensures Fits(pool, debtOrder.value, taker.forSale, t)
      ensures !t.closed ==> Spent(taker, t.debtReceived)
    {
      TakerBuysFits(pool, debtOrder.value, taker.forSale);
      if pool.debt > taker.forSale {
        var orderReceives := Convert(taker.forSale, Inverse(debtOrder.value.price));
        // a taker that would get nothing is already dust at its own price
        NotWorseThanAsked(taker, debtOrder.value.price, taker.forSale);
        t := Trade(ConvertUp(orderReceives, debtOrder.value.price), orderReceives, false);
        NotWorseThanAsked(taker, debtOrder.value.price, taker.forSale - t.debtReceived);
      } else {
        t := Trade(pool.debt, debtOrder.value.forSale, true);
      }
    }

    /** `match_settled_debt_limit`: the debt order takes a limit order that offers its price. */
    method MatchSettledDebtLimit(i: nat) returns (t: Trade)
      requires Valid() && settlementPrice.None? && i < |market.book[0]| && debtOrder.Some?
      requires AtMost(Inverse(debtOrder.value.price), market.book[0][i].price)
      modifies this`pool, this`debtOrder, this`supply, market`book, market.ledger
      ensures Valid()
      ensures forall a :: Total(a) == old(Total(a))
      ensures t == old(MakerBuys(pool, market.book[0][i].forSale, market.book[0][i].price)) && t.Trade?
      ensures old(Fits(pool, debtOrder.value, market.book[0][i].forSale, t))
      ensures supply == old(supply) - t.debtReceived && pool.debt == old(pool).debt - t.debtReceived
      ensures Sides() == old(Traded(Sides(), i, t, true)) && market.book[1] == old(market.book[1])
      ensures if t.closed
                 then debtOrder.None? && pool == Pool(0, 0)
                 else market.book[0] == old(Without(market.book[0], i))
    {
      t := OfferToMaker(market.book[0][i]);
      TradeWithLimit(i, t, true);
    }

    method OfferToMaker(maker: Order) returns (t: Trade)
      requires Sound(maker) && debtOrder.Some? && Backed(pool, debtOrder.value)
      requires AtMost(Inverse(debtOrder.value.price), maker.price)
      ensures t.Trade? && t == MakerBuys(pool, maker.forSale, maker.price)
      ensures Fits(pool, debtOrder.value, maker.forSale, t)
      ensures !t.closed ==> Spent(maker, t.debtReceived)
    {
      MakerBuysFits(pool, debtOrder.value, maker.forSale, maker.price);
      if pool.debt > maker.forSale {
        var orderReceives := Convert(maker.forSale, maker.price);
        t := Trade(ConvertUp(orderReceives, Inverse(maker.price)), orderReceives, false);
      } else {
        t := Trade(pool.debt, ConvertUp(pool.debt, maker.price), true);
      }
    }

    /** `check_settled_debt_order`: the debt order takes limit orders, best first, for as long
        as they offer its price. */
    method CheckSettledDebtOrder()
      requires Valid() && settlementPrice.None?
      modifies this`pool, this`debtOrder, this`supply, market`book, market.ledger
      ensures Valid()
      ensures forall a :: Total(a) == old(Total(a))
      ensures old(supply) - supply == old(pool).debt - pool.debt
      ensures Sides() == old(DebtSweep(Sides())) && market.book[1] == old(market.book[1])
      ensures debtOrder.Some? && market.book[0] != [] ==>
        !AtMost(Inverse(debtOrder.value.price), market.book[0][0].price)
    {
      while debtOrder.Some? && market.book[0] != [] && AtMost(Inverse(debtOrder.value.price), market.book[0][0].price)
        invariant Valid()
        invariant forall a :: Total(a) == old(Total(a))
        invariant old(supply) - supply == old(pool).debt - pool.debt
        invariant DebtSweep(Sides()) == old(DebtSweep(Sides())) && market.book[1] == old(market.book[1])
        decreases debtOrder.Some?, |market.book[0]|
      {
        var t := MatchSettledDebtLimit(0);
      }
    }

    // ----- settlement against the fund or the pool -----

    /** No slot holds more of the smartcoin than there is. */
    lemma BalanceIsInSupply(slot: Slot)
      requires Valid() && Denomination(slot) == DebtAsset()
      ensures AmountIn(market.ledger.funds, slot) <= supply
    {
      HeldBound(market.ledger.funds, slot);
      KeptNonNegative(market.book[0], market.assets[0], DebtAsset());
      KeptNonNegative(market.book[1], market.assets[1], DebtAsset());
      SumNonNegative(settles, (id: nat, s: Settle) => s.balance);
    }

    /** The collateral fee of `pay_collateral_fees`: what the settler gets beyond the margin call
        order price. */
    function CollateralFee(pays: nat, gets: nat, feed: Option<Feed>): (fee: nat)
      requires feed.Some? ==> GoodFeed(feed.value)
      ensures fee <= gets
    {
      if feed.None? || isPredictionMarket then
        0
      else
        var byOrderPrice := ConvertUp(pays, MarginCallOrderPrice(feed.value));
        if byOrderPrice < gets then gets - byOrderPrice else 0
    }

    /** A settler keeps no more than its debt is worth at the margin call order price, rounded up; the
        fee is what it would get beyond that. */
    lemma CollateralFeeIs(pays: nat, gets: nat, feed: Option<Feed>)
      requires feed.Some? ==> GoodFeed(feed.value)
      ensures var fee := CollateralFee(pays, gets, feed);
              && (feed.None? || isPredictionMarket ==> fee == 0)
              && (feed.Some? && !isPredictionMarket ==>
                    var p, keeps := MarginCallOrderPrice(feed.value), gets - fee;
                    (keeps - 1) * p.base < pays * p.quote && (fee > 0 ==> pays * p.quote <= keeps * p.base))
    {
      if feed.Some? && !isPredictionMarket {
        var p, keeps := MarginCallOrderPrice(feed.value), gets - CollateralFee(pays, gets, feed);
        ConvertUpGalois(pays, p, keeps - 1);
        ConvertUpGalois(pays, p, keeps);
        if keeps == 0 {
          MulNonNeg(pays, p.quote);
        }
      }
    }

    function SettlerPostings(who: Account, pays: nat, gets: nat, collateralFee: nat): seq<Posting>
      requires |market.assets| == 2 && collateralFee <= gets
    {
      [ Posting(Balance(who, DebtAsset()), 0 - pays),
        Posting(CollateralFees(DebtAsset(), CollateralAsset()), collateralFee) ]
      + market.ReceiptPostings(who, CollateralAsset(), gets - collateralFee, false)
    }

    /** The settler gives up debt and receives collateral, less the fees. */
    method PaySettler(who: Account, pays: nat, gets: nat, collateralFee: nat)
      requires market.AtRest() && collateralFee <= gets
      requires pays <= AmountIn(market.ledger.funds, Balance(who, DebtAsset()))
      modifies market.ledger`funds, market.ledger`journal
      ensures market.AtRest()
      ensures market.ledger.journal == old(market.ledger.journal) + SettlerPostings(who, pays, gets, collateralFee)
      ensures forall a :: market.Wealth(a) == old(market.Wealth(a))
                + (if a == CollateralAsset() then gets else 0) - (if a == DebtAsset() then pays else 0)
    {
      var ok := market.Post(Balance(who, DebtAsset()), 0 - pays);
      market.Give(CollateralFees(DebtAsset(), CollateralAsset()), collateralFee);
      market.GiveLessFees(who, CollateralAsset(), gets - collateralFee, false);
    }

    /** `pay_settle_from_gs_fund`. Refused for lack of balance, or because the amount is too
        small to get anything; never because the fund is not sufficient. */
    method SettleFromFund(who: Account, amount: nat, feed: Option<Feed>) returns (ok: bool, pays: nat, gets: nat)
      requires Valid() && settlementPrice.Some? && amount > 0 && (feed.Some? ==> GoodFeed(feed.value))
      modifies this`supply, this`settlementFund, market.ledger`funds, market.ledger`journal
      ensures Valid()
      ensures forall a :: Total(a) == old(Total(a))
      ensures (pays, gets) == Payout(old(supply), old(settlementFund), settlementPrice.value, amount)
      ensures ok <==>
        amount <= old(AmountIn(market.ledger.funds, Balance(who, DebtAsset()))) && (gets > 0 || isPredictionMarket)
      ensures ok ==> supply == old(supply) - pays && settlementFund == old(settlementFund) - gets
      ensures ok ==>
        market.ledger.journal
          == old(market.ledger.journal) + SettlerPostings(who, pays, gets, CollateralFee(pays, gets, feed))
      ensures !ok ==>
        && supply == old(supply)
        && settlementFund == old(settlementFund)
        && market.ledger.journal == old(market.ledger.journal)
      ensures ok ==> (supply == 0 <==> amount == old(supply)) && (supply == 0 ==> settlementFund == 0)
    {
      var p := settlementPrice.value;
      gets := if amount == supply then settlementFund else Convert(amount, p);
      pays := amount;
      if amount != supply && gets != 0 && p.quote > 0 {
        pays := ConvertUp(gets, Inverse(p));
      }
      if amount > AmountIn(market.ledger.funds, Balance(who, DebtAsset())) {
        return false, pays, gets;
      }
      BalanceIsInSupply(Balance(who, DebtAsset()));
      PayoutKeepsFunded(supply, settlementFund, p, amount);
      assert gets <= settlementFund;  // "not sufficient to pay the settlement" never happens
      if gets == 0 && !isPredictionMarket {
        return false, pays, gets;
      }
      TakeFromFund(who, pays, gets, CollateralFee(pays, gets, feed));
      ok := true;
    }

    method TakeFromFund(who: Account, pays: nat, gets: nat, collateralFee: nat)
      requires Valid() && settlementPrice.Some? && collateralFee <= gets
      requires pays <= supply && gets <= settlementFund
      requires Funded(supply - pays, settlementFund - gets, settlementPrice.value)
      requires pays <= AmountIn(market.ledger.funds, Balance(who, DebtAsset()))
      modifies this`supply, this`settlementFund, market.ledger`funds, market.ledger`journal
      ensures Valid()
      ensures forall a :: Total(a) == old(Total(a))
      ensures supply == old(supply) - pays && settlementFund == old(settlementFund) - gets
      ensures market.ledger.journal == old(market.ledger.journal) + SettlerPostings(who, pays, gets, collateralFee)
    {
      PaySettler(who, pays, gets, collateralFee);
      settlementFund, supply := settlementFund - gets, supply - pays;
    }

    /** `pay_settle_from_individual_pool`. */
    method SettleFromPool(who: Account, amount: nat, feed: Option<Feed>) returns (ok: bool, pays: nat, gets: nat)
      requires Valid() && settlementPrice.None? && response == SettleToFund && pool.debt > 0
      requires amount > 0 && (feed.Some? ==> GoodFeed(feed.value))
      modifies this`supply, this`pool, market.ledger`funds, market.ledger`journal
      ensures Valid()
      ensures forall a :: Total(a) == old(Total(a))
      ensures ok <==>
        && amount <= old(AmountIn(market.ledger.funds, Balance(who, DebtAsset())))
        && (amount < old(pool).debt ==> PoolShare(amount, old(pool)) > 0)
      ensures ok ==> (pays, gets) == PoolPayout(old(pool), amount)
      ensures ok ==> pays <= amount && pays + pool.debt == old(pool).debt && gets + pool.fund == old(pool).fund
      ensures ok ==> supply == old(supply) - pays
      ensures ok ==>
        market.ledger.journal
          == old(market.ledger.journal) + SettlerPostings(who, pays, gets, CollateralFee(pays, gets, feed))
      ensures ok ==> old(pool).fund * pool.debt <= pool.fund * old(pool).debt
      ensures ok ==> (pool.debt == 0 <==> amount >= old(pool).debt)
      ensures !ok ==> pool == old(pool) && supply == old(supply) && market.ledger.journal == old(market.ledger.journal)
    {
      pays, gets := pool.debt, pool.fund;
      if amount > AmountIn(market.ledger.funds, Balance(who, DebtAsset())) {
        return false, 0, 0;
      }
      if amount < pool.debt {
        gets := PoolShare(amount, pool);
        if gets == 0 {
          return false, 0, 0;
        }
        PoolPayoutKeepsRatio(pool, amount);
        pays := DebtFor(gets, pool);
      }
      TakeFromPool(who, pays, gets, CollateralFee(pays, gets, feed));
      ok := true;
    }

    method TakeFromPool(who: Account, pays: nat, gets: nat, collateralFee: nat)
      requires Valid() && settlementPrice.None? && response == SettleToFund && collateralFee <= gets
      requires pays <= pool.debt && gets <= pool.fund && (pays == pool.debt <==> gets == pool.fund)
      requires pays <= AmountIn(market.ledger.funds, Balance(who, DebtAsset()))
      modifies this`supply, this`pool, market.ledger`funds, market.ledger`journal
      ensures Valid()
      ensures forall a :: Total(a) == old(Total(a))
      ensures pool == Pool(old(pool).debt - pays, old(pool).fund - gets) && supply == old(supply) - pays
      ensures market.ledger.journal == old(market.ledger.journal) + SettlerPostings(who, pays, gets, collateralFee)
    {
      DebtsNonNegative(calls);
      PaySettler(who, pays, gets, collateralFee);
      pool := Pool(pool.debt - pays, pool.fund - gets);
      supply := supply - pays;
    }
  }

  /** A price that meets the order's own gives it at least what it asks for. */
  lemma NotWorseThanAsked(o: Order, price: Price, amount: nat)
    requires Positive(o.price) && Positive(price) && AtMost(Inverse(o.price), price)
    ensures Convert(amount, o.price) <= Convert(amount, Inverse(price))
  {
    ConvertMonotone(amount, amount, o.price, Inverse(price));
  }
}
