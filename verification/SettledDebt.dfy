/** The order that offers the collateral of individually settled positions, and the pool
    behind it. Prices of the order are collateral per debt. */
module SettledDebt {
  import opened Rounding
  import opened Prices

  datatype Pool = Pool(debt: nat, fund: nat)

  datatype DebtOrder = DebtOrder(forSale: nat, price: Price)

  /** Collateral asked for at the order's price, rounded up. */
  function Asked(debt: nat, order: DebtOrder): nat
    requires Positive(order.price)
  {
    ConvertUp(debt, Inverse(order.price))
  }

  /** The order offers exactly what the whole debt costs at its price, and the fund can pay it. */
  ghost predicate Backed(pool: Pool, order: DebtOrder) {
    && Positive(order.price)
    && pool.debt > 0
    && order.forSale == Asked(pool.debt, order) <= pool.fund
  }

  /** A backed pool is not empty. */
  lemma BackedIsFunded(pool: Pool, order: DebtOrder)
    requires Backed(pool, order)
    ensures pool.fund >= order.forSale > 0
    ensures pool.debt * order.price.base <= pool.fund * order.price.quote
  {
    RoundTripUp(pool.debt, Inverse(order.price));
    ConvertUpGalois(pool.debt, Inverse(order.price), pool.fund);
  }

  /** `get_individual_settlement_price`, applied to an amount of debt and rounded down. */
  function PoolShare(debt: nat, pool: Pool): nat
    requires pool.debt > 0
  {
    MulNonNeg(debt, pool.fund);
    Floor(debt * pool.fund, pool.debt)
  }

  /** What the pool gives up when part of its debt is bought: the fund's own share when the
      order asks for less than the fund, and otherwise what the buyer gets. */
  function PoolPays(pool: Pool, order: DebtOrder, debtReceived: nat, buyerGets: nat): nat
    requires pool.debt > 0
  {
    if order.forSale != pool.fund then PoolShare(debtReceived, pool) else buyerGets
  }

  /** While the order asks for less than the fund, the pool gives up its own share of the fund for a
      part of its debt, rounded down, and otherwise what the buyer gets. */
  lemma PoolPaysIsExact(pool: Pool, order: DebtOrder, debtReceived: nat, buyerGets: nat)
    requires Backed(pool, order)
    ensures var pays := PoolPays(pool, order, debtReceived, buyerGets);
            if order.forSale < pool.fund then
              pays * pool.debt <= debtReceived * pool.fund < pays * pool.debt + pool.debt
            else
              pays == buyerGets
  {
    MulNonNeg(debtReceived, pool.fund);
  }

  /** If the fund covers the debt at a price, then so does what is left of it after it paid
      its own share of a part of the debt; and the share covers that part at the price. */
  lemma ShareIsFair(debt: int, fund: int, base: int, quote: int, part: int)
    requires 0 < part < debt && fund >= 0 && base > 0 && quote > 0
    requires debt * base <= fund * quote
    requires part * fund >= 0
    ensures var share := Floor(part * fund, debt);
            (debt - part) * base <= (fund - share) * quote
  {
    var share := Floor(part * fund, debt);
    var rest, left := debt - part, fund - share;
    assert rest * fund <= left * debt by {
      assert rest * fund == debt * fund - part * fund;
      assert left * debt == debt * fund - share * debt;
    }
    // rest/left <= debt/fund <= quote/base
    if fund > 0 {
      Chain(rest, left, fund, debt, base, quote);
    } else {
      MulPos(debt, base);
    }
  }

  lemma DirectIsFair(debt: int, fund: int, base: int, quote: int, part: int, gets: int)
    requires debt * base <= fund * quote
    requires gets * quote <= part * base
    ensures (debt - part) * base <= (fund - gets) * quote
  {
    assert (debt - part) * base == debt * base - part * base;
    assert (fund - gets) * quote == fund * quote - gets * quote;
  }

  lemma ShareCovers(debt: int, fund: int, base: int, quote: int, part: int, gets: int)
    requires 0 < part < debt && fund >= 0 && base > 0 && quote > 0
    requires debt * base <= fund * quote
    requires gets * quote <= part * base
    requires part * fund >= 0
    ensures gets <= Floor(part * fund, debt)
  {
    // gets/part <= base/quote <= fund/debt
    Chain(gets, part, quote, base, debt, fund);
    FloorGalois(part * fund, debt, gets);
  }

  /** Buying part of the debt at the order's price or better for the pool: the pool never pays
      less than the buyer gets, so the collateral fee is never negative, and the order stays
      backed at its old price. */
  lemma PartialFillStaysBacked(pool: Pool, order: DebtOrder, debtReceived: nat, buyerGets: nat)
    requires Backed(pool, order)
    requires 0 < debtReceived < pool.debt
    requires buyerGets * order.price.quote <= debtReceived * order.price.base
    ensures buyerGets <= PoolPays(pool, order, debtReceived, buyerGets) < pool.fund
    ensures var rest := Pool(pool.debt - debtReceived, pool.fund - PoolPays(pool, order, debtReceived, buyerGets));
            Backed(rest, order.(forSale := Asked(rest.debt, order)))
  {
    var pays := PoolPays(pool, order, debtReceived, buyerGets);
    var rest := pool.debt - debtReceived;
    var p := order.price;
    BackedIsFunded(pool, order);
    MulNonNeg(debtReceived, pool.fund);
    if order.forSale != pool.fund {
      ShareCovers(pool.debt, pool.fund, p.base, p.quote, debtReceived, buyerGets);
      ShareIsFair(pool.debt, pool.fund, p.base, p.quote, debtReceived);
    } else {
      DirectIsFair(pool.debt, pool.fund, p.base, p.quote, debtReceived, buyerGets);
    }
    assert buyerGets <= pays;
    LeftIsPositive(rest, pool.fund - pays, p);
  }

  lemma LeftIsPositive(rest: nat, left: int, p: Price)
    requires rest > 0 && Positive(p)
    requires rest * p.base <= left * p.quote
    ensures left > 0 && ConvertUp(rest, Inverse(p)) <= left
  {
    MulPos(rest, p.base);
    if left <= 0 {
      MulLe(left, 0, p.quote);
    }
    ConvertUpGalois(rest, Inverse(p), left);
  }

  /** Closing the order: the pool pays its whole fund, which is at least what the buyer gets. */
  lemma FullFillIsCovered(pool: Pool, order: DebtOrder, buyerGets: nat)
    requires Backed(pool, order)
    requires buyerGets <= Asked(pool.debt, order)
    ensures buyerGets <= pool.fund
  {
  }

  /** What a limit order buying the collateral and the pool exchange in `match_limit_settled_debt`
      and `match_settled_debt_limit`: debt for the pool, collateral for the buyer. */
  datatype Trade = NoTrade | Trade(debtReceived: nat, buyerGets: nat, closed: bool)

  /** The limit order is the taker: it buys at the order's own price. */
  function TakerBuys(pool: Pool, order: DebtOrder, forSale: nat): Trade
    requires Positive(order.price)
  {
    if pool.debt > forSale then
      var gets := Convert(forSale, Inverse(order.price));
      if gets == 0 then NoTrade else Trade(ConvertUp(gets, order.price), gets, false)
    else
      Trade(pool.debt, order.forSale, true)
  }

  /** The limit order is the maker: it buys at its own price, which is debt per collateral. */
  function MakerBuys(pool: Pool, forSale: nat, makerPrice: Price): Trade
    requires Positive(makerPrice)
  {
    if pool.debt > forSale then
      var gets := Convert(forSale, makerPrice);
      Trade(ConvertUp(gets, Inverse(makerPrice)), gets, false)
    else
      Trade(pool.debt, ConvertUp(pool.debt, makerPrice), true)
  }

  /** A limit order that has enough takes all that is offered for all the debt. One that has less gets
      what it has is worth, rounded down, and pays the least for that: at the debt order's price when
      it comes later, and at its own when it was there before. */
  lemma TakerBuysIsExact(pool: Pool, order: DebtOrder, forSale: nat)
    requires Positive(order.price)
    ensures var t, p := TakerBuys(pool, order, forSale), order.price;
            if pool.debt <= forSale then
              t == Trade(pool.debt, order.forSale, true)
            else if forSale * p.base < p.quote then
              t == NoTrade
            else
              && t.Trade? && !t.closed
              && t.buyerGets * p.quote <= forSale * p.base < t.buyerGets * p.quote + p.quote
              && t.debtReceived * p.base - p.base < t.buyerGets * p.quote <= t.debtReceived * p.base
  {
    ConvertGalois(forSale, Inverse(order.price), 1);
  }

  lemma MakerBuysIsExact(pool: Pool, forSale: nat, makerPrice: Price)
    requires Positive(makerPrice)
    ensures var t, p := MakerBuys(pool, forSale, makerPrice), makerPrice;
            if pool.debt <= forSale then
              && t.Trade? && t.closed && t.debtReceived == pool.debt
              && t.buyerGets * p.base - p.base < pool.debt * p.quote <= t.buyerGets * p.base
            else
              && t.Trade? && !t.closed
              && t.buyerGets * p.base <= forSale * p.quote < t.buyerGets * p.base + p.base
              && t.debtReceived * p.quote - p.quote < t.buyerGets * p.base <= t.debtReceived * p.quote
  {
  }

  /** A trade the pool can carry out. */
  predicate Fits(pool: Pool, order: DebtOrder, forSale: nat, t: Trade)
    requires Positive(order.price)
  {
    t.Trade? ==>
      && 0 < t.debtReceived <= forSale
      && t.debtReceived <= pool.debt
      && t.buyerGets > 0
      && (t.closed <==> t.debtReceived == pool.debt)
      && (if t.closed then t.buyerGets <= Asked(pool.debt, order)
          else t.buyerGets * order.price.quote <= t.debtReceived * order.price.base)
  }

  /** What the pool pays in a trade that fits is in its fund, and what is left stays backed. */
  lemma TradeIsPaid(pool: Pool, order: DebtOrder, forSale: nat, t: Trade)
    requires Backed(pool, order) && t.Trade? && Fits(pool, order, forSale, t)
    ensures t.closed ==> t.buyerGets <= pool.fund
    ensures !t.closed ==>
      && t.debtReceived < pool.debt && t.buyerGets <= PoolPays(pool, order, t.debtReceived, t.buyerGets) < pool.fund
      && var rest := Pool(pool.debt - t.debtReceived, pool.fund - PoolPays(pool, order, t.debtReceived, t.buyerGets));
         Backed(rest, order.(forSale := Asked(rest.debt, order)))
  {
    if !t.closed {
      PartialFillStaysBacked(pool, order, t.debtReceived, t.buyerGets);
    }
  }

  lemma TakerBuysFits(pool: Pool, order: DebtOrder, forSale: nat)
    requires Backed(pool, order)
    ensures Fits(pool, order, forSale, TakerBuys(pool, order, forSale))
    ensures var t := TakerBuys(pool, order, forSale);
            && (t.Trade? && !t.closed ==> Convert(forSale - t.debtReceived, Inverse(order.price)) == 0)
            && (t.NoTrade? ==> Convert(forSale, Inverse(order.price)) == 0)
  {
    BackedIsFunded(pool, order);
    if pool.debt > forSale {
      Stabilised(forSale, Inverse(order.price));
    }
  }

  /** A maker that is not dust and whose price meets the order's price. */
  lemma MakerBuysFits(pool: Pool, order: DebtOrder, forSale: nat, makerPrice: Price)
    requires Backed(pool, order) && Positive(makerPrice)
    requires Convert(forSale, makerPrice) > 0
    requires AtMost(Inverse(order.price), makerPrice)
    ensures Fits(pool, order, forSale, MakerBuys(pool, forSale, makerPrice))
    ensures var t := MakerBuys(pool, forSale, makerPrice);
            t.Trade? && !t.closed ==> Convert(forSale - t.debtReceived, makerPrice) == 0
  {
    if pool.debt > forSale {
      Stabilised(forSale, makerPrice);
      var t := MakerBuys(pool, forSale, makerPrice);
      Chain(t.buyerGets, t.debtReceived, makerPrice.base, makerPrice.quote, order.price.quote, order.price.base);
    } else {
      ConvertUpMonotone(pool.debt, pool.debt, makerPrice, Inverse(order.price));
      RoundTripUp(pool.debt, makerPrice);
    }
  }

  /** The least debt that is worth so much collateral at the pool's price. */
  function DebtFor(gets: nat, pool: Pool): nat
    requires pool.fund > 0
  {
    MulNonNeg(gets, pool.debt);
    Ceil(gets * pool.debt, pool.fund)
  }

  /** What a settler gives the pool and gets from it: nothing when that would be too little. */
  function PoolPayout(pool: Pool, amount: nat): (r: (nat, nat))
    requires pool.debt > 0
  {
    if amount >= pool.debt then
      (pool.debt, pool.fund)
    else
      var gets := PoolShare(amount, pool);
      if gets == 0 || pool.fund == 0 then (0, 0) else (DebtFor(gets, pool), gets)
  }

  /** With all of the debt comes all of the fund; for less of it its share of the fund, rounded down,
      for the least debt whose share that is. */
  lemma PoolPayoutIsExact(pool: Pool, amount: nat)
    requires pool.debt > 0
    ensures var (pays, gets) := PoolPayout(pool, amount);
            if amount >= pool.debt then
              pays == pool.debt && gets == pool.fund
            else
              && gets * pool.debt <= amount * pool.fund < gets * pool.debt + pool.debt
              && (gets == 0 ==> pays == 0)
              && (gets > 0 ==> pays * pool.fund - pool.fund < gets * pool.debt <= pays * pool.fund)
  {
    MulNonNeg(amount, pool.fund);
    var (pays, gets) := PoolPayout(pool, amount);
    MulNonNeg(gets, pool.debt);
  }

  /** Settlement from a pool at its own price, `pay_settle_from_individual_pool`: the settler
      gets the floor and pays the least debt for it, so the pool's ratio never falls. */
  lemma PoolPayoutKeepsRatio(pool: Pool, amount: nat)
    requires amount < pool.debt
    ensures var gets := PoolShare(amount, pool);
            gets > 0 ==>
              && pool.fund > 0
              && var pays := DebtFor(gets, pool);
              && 0 < pays <= amount
              && gets < pool.fund
              && pool.fund * (pool.debt - pays) <= (pool.fund - gets) * pool.debt
  {
    var gets := PoolShare(amount, pool);
    MulNonNeg(amount, pool.fund);
    if gets > 0 {
      assert pool.fund > 0;
      MulPos(gets, pool.debt);
      CeilGalois(gets * pool.debt, pool.fund, amount);
      var pays := Ceil(gets * pool.debt, pool.fund);
      MulLt(amount, pool.debt, pool.fund);
      CancelStrict(gets, pool.fund, pool.debt);
      assert pool.fund * (pool.debt - pays) == pool.fund * pool.debt - pays * pool.fund;
      assert (pool.fund - gets) * pool.debt == pool.fund * pool.debt - gets * pool.debt;
    }
  }
}
