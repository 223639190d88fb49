/** The operation by which a holder of a smartcoin settles it for collateral. */
module AssetSettle {
  import opened Options
  import opened Rounding
  import opened Prices
  import opened Ledgers
  import opened LimitMatching
  import opened LimitMarkets
  import opened MaxDebtToCover
  import opened SettledDebt
  import opened GlobalSettlement
  import opened FeedPolicy
  import opened Smartcoins
  import opened MarginCalls

  /** is_individually_settled_to_fund */
  predicate HasPool(coin: Smartcoin)
    reads coin`response, coin`pool
  {
    coin.response == SettleToFund && coin.pool.debt > 0
  }

  /** The checks of the operation, besides the balance. */
  predicate MaySettle(coin: Smartcoin, policy: Policy, feed: Option<Feed>, canForceSettle: bool)
    reads coin`response, coin`pool, coin`settlementPrice
  {
    && !policy.settlementsDisabled
    && (canForceSettle || coin.settlementPrice.Some? || HasPool(coin))
    && (coin.isPredictionMarket ==> coin.settlementPrice.Some?)
    && (feed.None? ==> coin.settlementPrice.Some? || HasPool(coin))
  }

  /** Under the policy of this chain only a prediction market that was globally settled is settled,
      whatever the coin's response, pool and feed. */
  lemma OnlyPredictionMarketsSettle(coin: Smartcoin, feed: Option<Feed>, canForceSettle: bool)
    ensures MaySettle(coin, PolicyOf(coin.isPredictionMarket), feed, canForceSettle)
            <==> coin.isPredictionMarket && coin.settlementPrice.Some?
  {
  }

  /** What the checks come to: a globally settled coin may always be settled, and any other that is not a
      prediction market from its pool, or when force settlement is on and there is a feed. */
  lemma MaySettleMeans(coin: Smartcoin, policy: Policy, feed: Option<Feed>, canForceSettle: bool)
    ensures MaySettle(coin, policy, feed, canForceSettle) <==>
      && !policy.settlementsDisabled
      && (|| coin.settlementPrice.Some?
          || (!coin.isPredictionMarket
              && ((coin.response == SettleToFund && coin.pool.debt > 0) || (canForceSettle && feed.Some?))))
  {
  }

  /** A settler's own balances change by exactly what it pays of the smartcoin, and what it gets of the
      collateral less the collateral fee and the market fee of a taker. */
  lemma SettlerPaysExactly(coin: Smartcoin, who: Account, pays: nat, gets: nat, collateralFee: nat, slot: Slot)
    requires coin.market.Shape() && collateralFee <= gets && slot.Balance?
    ensures var net: nat := gets - collateralFee;
            PostedTo(coin.SettlerPostings(who, pays, gets, collateralFee), slot)
            == (if slot == Balance(who, coin.DebtAsset()) then 0 - pays else 0)
               + (if slot == Balance(who, coin.CollateralAsset())
                  then net - coin.market.MarketFee(coin.CollateralAsset(), net, false) else 0)
  {
    var net: nat := gets - collateralFee;
    var fee := coin.market.MarketFee(coin.CollateralAsset(), net, false);
    var f := coin.market.FeePostings(who, coin.CollateralAsset(), fee);
    var last := Posting(Balance(who, coin.CollateralAsset()), net - fee);
    var first := Posting(Balance(who, coin.DebtAsset()), 0 - pays);
    var second := Posting(CollateralFees(coin.DebtAsset(), coin.CollateralAsset()), collateralFee);
    PostedToConcat([first, second], f + [last], slot);
    PostedToConcat(f, [last], slot);
    PostedToThree(first, second, second, slot);
    PostedToOne(last, slot);
    coin.market.FeesGoTo(who, coin.CollateralAsset(), fee, slot);
  }

  /** Whether the amount is enough to get something for it. */
  predicate Suffices(coin: Smartcoin, amount: nat)
    reads coin`response, coin`pool, coin`settlementPrice, coin`settlementFund, coin`supply
    requires coin.settlementPrice.Some? ==> coin.settlementPrice.value.base > 0
  {
    if coin.settlementPrice.Some? then
      coin.isPredictionMarket || Payout(coin.supply, coin.settlementFund, coin.settlementPrice.value, amount).1 > 0
    else
      HasPool(coin) && amount < coin.pool.debt ==> PoolShare(amount, coin.pool) > 0
  }

  /** In products: the amount is worth a unit of collateral at the settlement price, or at the pool's. */
  lemma SufficesMeans(coin: Smartcoin, amount: nat)
    requires coin.settlementPrice.Some? ==> coin.settlementPrice.value.base > 0
    ensures Suffices(coin, amount) <==>
      match coin.settlementPrice
      case Some(p) =>
        coin.isPredictionMarket
        || if amount == coin.supply then coin.settlementFund > 0 else p.base <= amount * p.quote
      case None =>
        coin.response != SettleToFund || coin.pool.debt <= amount || coin.pool.debt <= amount * coin.pool.fund
  {
    if coin.settlementPrice.Some? {
      ConvertGalois(amount, coin.settlementPrice.value, 1);
    } else if coin.pool.debt > 0 {
      MulNonNeg(amount, coin.pool.fund);
      FloorGalois(amount * coin.pool.fund, coin.pool.debt, 1);
    }
  }

  /** What is paid at once and what for: from the fund, or from the pool. */
  function PaidAtOnce(coin: Smartcoin, amount: nat): (r: (nat, nat))
    reads coin`response, coin`pool, coin`settlementPrice, coin`settlementFund, coin`supply
    requires coin.settlementPrice.Some? ==> coin.settlementPrice.value.base > 0
  {
    if coin.settlementPrice.Some? then
      Payout(coin.supply, coin.settlementFund, coin.settlementPrice.value, amount)
    else if HasPool(coin) then
      PoolPayout(coin.pool, amount)
    else
      (0, 0)
  }

  /** What is left to be settled by an order: only without a fund, and beyond the pool. */
  function LeftToSettle(coin: Smartcoin, amount: nat, feed: Option<Feed>, canForceSettle: bool): nat
    reads coin`response, coin`pool, coin`settlementPrice
  {
    if coin.settlementPrice.Some? || feed.None? || !canForceSettle then 0
    else if !HasPool(coin) then amount
    else if amount > coin.pool.debt then amount - coin.pool.debt
    else 0
  }

  /** Only what is beyond the debt of a pool that settles to the fund is left. */
  lemma LeftIsBeyondThePool(coin: Smartcoin, amount: nat, feed: Option<Feed>, canForceSettle: bool)
    requires coin.settlementPrice.Some? ==> coin.settlementPrice.value.base > 0
    ensures var left, poolDebt := LeftToSettle(coin, amount, feed, canForceSettle),
                                  if coin.response == SettleToFund then coin.pool.debt else 0;
            && (coin.settlementPrice.None? && canForceSettle && feed.Some? && poolDebt < amount ==>
                  left + poolDebt == amount)
            && (left > 0 ==> coin.settlementPrice.None? && canForceSettle && feed.Some? && poolDebt < amount)
  {
  }

  /** A settle order is placed, which takes its amount from the owner's balance. */
  ghost function Placed(m: Meeting, coin: Smartcoin, id: nat, who: Account, amount: nat): Meeting
    requires |coin.market.assets| == 2
  {
    m.(settles := m.settles[id := Smartcoins.Settle(who, amount)],
       journal := m.journal + [Posting(Balance(who, coin.DebtAsset()), 0 - amount)])
  }

  /** The rest is placed as an order, which then meets one margin call after the other. */
  ghost predicate MetAsOrder(coin: Smartcoin, run: seq<Meeting>, was: Meeting, now: Meeting, id: nat, who: Account,
                             rest: nat, feed: Feed)
    requires |coin.market.assets| == 2
  {
    MeetsRun(coin, run, id, feed) && run[0] == Placed(was, coin, id, who, rest) && run[|run| - 1] == now
  }

  /** What the fund or the pool has paid at once, if there is one. */
  ghost function Paid(m: Meeting, coin: Smartcoin, paid: bool, who: Account, pays: nat, gets: nat,
                      collateralFee: nat): Meeting
    requires |coin.market.assets| == 2 && collateralFee <= gets
  {
    m.(supply := m.supply - pays,
       journal := m.journal + if paid then coin.SettlerPostings(who, pays, gets, collateralFee) else [])
  }

  /** After that nothing more happens, or the rest becomes an order that meets margin calls. */
  ghost predicate RestSettled(coin: Smartcoin, run: seq<Meeting>, paid: Meeting, now: Meeting, id: nat, who: Account,
                              rest: nat, feed: Option<Feed>)
    requires |coin.market.assets| == 2
  {
    if rest == 0 then
      now == paid
    else
      && feed.Some? && GoodFeed(feed.value)
      && MetAsOrder(coin, run, paid, now, id, who, rest, feed.value)
      && RestMet(paid.calls, now.calls, paid.settles[id := Smartcoins.Settle(who, rest)], now.settles, id,
                 paid.supply - now.supply, feed.value)
  }

  /** The part of `asset_settle` that meets the settlement pool, if there is one. */
  method SettleAtPool(coin: Smartcoin, who: Account, amount: nat, feed: Option<Feed>, canForceSettle: bool)
    returns (ok: bool, pays: nat, gets: nat, rest: nat)
    requires coin.Valid() && coin.settlementPrice.None?
    requires amount > 0 && (feed.Some? ==> GoodFeed(feed.value))
    requires amount <= AmountIn(coin.market.ledger.funds, Balance(who, coin.DebtAsset()))
    modifies coin`supply, coin`pool, coin.market.ledger`funds, coin.market.ledger`journal
    ensures coin.Valid()
    ensures forall a :: coin.Total(a) == old(coin.Total(a))
    ensures rest <= AmountIn(coin.market.ledger.funds, Balance(who, coin.DebtAsset()))
    ensures ok <==> old(Suffices(coin, amount))
    ensures (pays, gets) == if ok then old(PaidAtOnce(coin, amount)) else (0, 0)
    ensures rest == if ok then old(LeftToSettle(coin, amount, feed, canForceSettle)) else 0
    ensures pays + coin.pool.debt == old(coin.pool).debt && gets + coin.pool.fund == old(coin.pool).fund
    ensures MeetingOf(coin)
              == Paid(old(MeetingOf(coin)), coin, ok && old(HasPool(coin)), who, pays, gets,
                      coin.CollateralFee(pays, gets, feed))
  {
    ok, pays, gets, rest := true, 0, 0, 0;
    if HasPool(coin) {
      ok, pays, gets := SettlePool(coin, who, amount, feed);
    }
    if ok && !HasPool(coin) && canForceSettle && feed.Some? {
      rest := amount - pays;
    }
  }

  /** The pool pays, and what it does not take of the amount is left to the settler. */
  method SettlePool(coin: Smartcoin, who: Account, amount: nat, feed: Option<Feed>)
    returns (ok: bool, pays: nat, gets: nat)
    requires coin.Valid() && coin.settlementPrice.None? && HasPool(coin)
    requires amount > 0 && (feed.Some? ==> GoodFeed(feed.value))
    requires amount <= AmountIn(coin.market.ledger.funds, Balance(who, coin.DebtAsset()))
    modifies coin`supply, coin`pool, coin.market.ledger`funds, coin.market.ledger`journal
    ensures coin.Valid()
    ensures forall a :: coin.Total(a) == old(coin.Total(a))
    ensures ok <==> old(Suffices(coin, amount))
    ensures (pays, gets) == if ok then PoolPayout(old(coin.pool), amount) else (0, 0)
    ensures pays + coin.pool.debt == old(coin.pool).debt && gets + coin.pool.fund == old(coin.pool).fund
    ensures pays <= amount
    ensures ok ==> (coin.pool.debt == 0 <==> amount >= old(coin.pool).debt)
    ensures AmountIn(coin.market.ledger.funds, Balance(who, coin.DebtAsset()))
              == old(AmountIn(coin.market.ledger.funds, Balance(who, coin.DebtAsset()))) - pays
    ensures MeetingOf(coin)
              == Paid(old(MeetingOf(coin)), coin, ok, who, pays, gets, coin.CollateralFee(pays, gets, feed))
  {
    ghost var journal := coin.market.ledger.journal;
    BalanceIsPosted(coin, Balance(who, coin.DebtAsset()));
    ok, pays, gets := coin.SettleFromPool(who, amount, feed);
    BalanceIsPosted(coin, Balance(who, coin.DebtAsset()));
    if !ok {
      return ok, 0, 0;
    }
    PaidFromBalance(coin, journal, who, pays, gets, coin.CollateralFee(pays, gets, feed));
  }

  lemma {:induction false} BalanceIsPosted(coin: Smartcoin, slot: Slot)
    requires coin.Valid()
    ensures AmountIn(coin.market.ledger.funds, slot) == PostedTo(coin.market.ledger.journal, slot)
  {
  }

  lemma {:induction false} PaidFromBalance(coin: Smartcoin, journal: seq<Posting>, who: Account, pays: nat, gets: nat,
                                           collateralFee: nat)
    requires coin.market.Shape() && collateralFee <= gets
    ensures var slot := Balance(who, coin.DebtAsset());
            PostedTo(journal + coin.SettlerPostings(who, pays, gets, collateralFee), slot)
                == PostedTo(journal, slot) - pays
  {
    SettlerPaysExactly(coin, who, pays, gets, collateralFee, Balance(who, coin.DebtAsset()));
    PostedToConcat(journal, coin.SettlerPostings(who, pays, gets, collateralFee), Balance(who, coin.DebtAsset()));
  }

  /** `asset_settle`, under any policy: from the fund of a globally settled coin; else from the settlement pool,
      and only when that is used up does the rest become a settle order, which meets margin
      calls at once. The operation never fails after it has begun to pay. */
  method Settle(coin: Smartcoin, policy: Policy, who: Account, amount: nat, feed: Option<Feed>, canForceSettle: bool,
                id: nat)
    returns (ok: bool, pays: nat, gets: nat, ghost rest: nat, ghost run: seq<Meeting>)
    requires coin.Valid() && amount > 0 && (feed.Some? ==> GoodFeed(feed.value)) && id !in coin.settles
    modifies coin`calls, coin`supply, coin`settles, coin`pool, coin`settlementFund, coin.market.ledger
    ensures coin.Valid()
    ensures forall a :: coin.Total(a) == old(coin.Total(a))
    ensures ok <==>
      && old(MaySettle(coin, policy, feed, canForceSettle) && Suffices(coin, amount))
      && amount <= old(AmountIn(coin.market.ledger.funds, Balance(who, coin.DebtAsset())))
    ensures (pays, gets) == if ok then old(PaidAtOnce(coin, amount)) else (0, 0)
    ensures rest == if ok then old(LeftToSettle(coin, amount, feed, canForceSettle)) else 0
    ensures if coin.settlementPrice.Some?
            then coin.settlementFund == old(coin.settlementFund) - gets && coin.pool == old(coin.pool)
            else coin.settlementFund == old(coin.settlementFund)
                 && pays + coin.pool.debt == old(coin.pool).debt && gets + coin.pool.fund == old(coin.pool).fund
    ensures RestSettled(coin, run,
                        Paid(old(MeetingOf(coin)), coin, ok && old(coin.settlementPrice.Some? || HasPool(coin)), who,
                             pays, gets,
                                        coin.CollateralFee(pays, gets, feed)),
                        MeetingOf(coin), id, who, rest, feed)
  {
    ok, pays, gets, rest, run := false, 0, 0, 0, [];
    if !MaySettle(coin, policy, feed, canForceSettle)
        || AmountIn(coin.market.ledger.funds, Balance(who, coin.DebtAsset())) < amount {
      return;
    }
    if coin.settlementPrice.Some? {
      ok, pays, gets := SettleAtFund(coin, who, amount, feed);
      return;
    }
    ok, pays, gets, rest, run := SettleFromPoolAndPositions(coin, who, amount, feed, canForceSettle, id);
  }

  /** The part of `asset_settle` for a globally settled coin. */
  method SettleAtFund(coin: Smartcoin, who: Account, amount: nat, feed: Option<Feed>)
    returns (ok: bool, pays: nat, gets: nat)
    requires coin.Valid() && coin.settlementPrice.Some? && amount > 0 && (feed.Some? ==> GoodFeed(feed.value))
    requires amount <= AmountIn(coin.market.ledger.funds, Balance(who, coin.DebtAsset()))
    modifies coin`supply, coin`settlementFund, coin.market.ledger`funds, coin.market.ledger`journal
    ensures coin.Valid()
    ensures forall a :: coin.Total(a) == old(coin.Total(a))
    ensures ok <==> old(Suffices(coin, amount))
    ensures (pays, gets) == if ok then old(PaidAtOnce(coin, amount)) else (0, 0)
    ensures coin.settlementFund == old(coin.settlementFund) - gets
    ensures MeetingOf(coin)
              == Paid(old(MeetingOf(coin)), coin, ok, who, pays, gets, coin.CollateralFee(pays, gets, feed))
  {
    ok, pays, gets := coin.SettleFromFund(who, amount, feed);
    if !ok {
      pays, gets := 0, 0;
    }
  }

  /** The part of `asset_settle` for a coin that is not globally settled. */
  method SettleFromPoolAndPositions(coin: Smartcoin, who: Account, amount: nat, feed: Option<Feed>,
                                    canForceSettle: bool, id: nat)
    returns (ok: bool, pays: nat, gets: nat, ghost rest: nat, ghost run: seq<Meeting>)
    requires coin.Valid() && coin.settlementPrice.None? && amount > 0 && (feed.Some? ==> GoodFeed(feed.value))
    requires id !in coin.settles
    requires (canForceSettle && feed.Some?) || HasPool(coin)
    requires !coin.isPredictionMarket && amount <= AmountIn(coin.market.ledger.funds, Balance(who, coin.DebtAsset()))
    modifies coin`calls, coin`supply, coin`settles, coin`pool, coin.market.ledger
    ensures coin.Valid()
    ensures forall a :: coin.Total(a) == old(coin.Total(a))
    ensures ok <==> old(Suffices(coin, amount))
    ensures (pays, gets) == if ok then old(PaidAtOnce(coin, amount)) else (0, 0)
    ensures rest == if ok then old(LeftToSettle(coin, amount, feed, canForceSettle)) else 0
    ensures pays + coin.pool.debt == old(coin.pool).debt && gets + coin.pool.fund == old(coin.pool).fund
    ensures RestSettled(coin, run,
                        Paid(old(MeetingOf(coin)), coin, ok && old(HasPool(coin)), who, pays, gets,
                             coin.CollateralFee(pays, gets, feed)),
                        MeetingOf(coin), id, who, rest, feed)
  {
    var toSettle;
    ok, pays, gets, toSettle := SettleAtPool(coin, who, amount, feed, canForceSettle);
    rest := toSettle;
    run := SettleRest(coin, who, toSettle, feed, id);
  }

  /** The rest, if there is any, waits as a settle order and meets margin calls. */
  method SettleRest(coin: Smartcoin, who: Account, rest: nat, feed: Option<Feed>, id: nat)
    returns (ghost run: seq<Meeting>)
    requires coin.Valid() && coin.settlementPrice.None? && id !in coin.settles
    requires rest > 0 ==> feed.Some? && GoodFeed(feed.value)
    requires rest <= AmountIn(coin.market.ledger.funds, Balance(who, coin.DebtAsset()))
    modifies coin`calls, coin`supply, coin`settles, coin.market.ledger
    ensures coin.Valid()
    ensures forall a :: coin.Total(a) == old(coin.Total(a))
    ensures RestSettled(coin, run, old(MeetingOf(coin)), MeetingOf(coin), id, who, rest, feed)
  {
    run := [];
    if rest > 0 {
      PlaceRest(coin, who, rest, id);
      run := ApplyForceSettlement(coin, id, feed.value);
    }
  }

  /** The rest waits as a settle order. */
  method PlaceRest(coin: Smartcoin, who: Account, rest: nat, id: nat)
    requires coin.Valid() && coin.settlementPrice.None? && id !in coin.settles && rest > 0
    requires rest <= AmountIn(coin.market.ledger.funds, Balance(who, coin.DebtAsset()))
    modifies coin`settles, coin.market.ledger`funds, coin.market.ledger`journal
    ensures coin.Valid() && id in coin.settles
    ensures forall a :: coin.Total(a) == old(coin.Total(a))
    ensures MeetingOf(coin) == Placed(old(MeetingOf(coin)), coin, id, who, rest)
  {
    var ok := CreateSettleOrder(coin, id, who, rest);
  }
}
