# Verified models of the market, credit, fork and storage machinery

This project models the parts of the chain software in which state changes step by step under
rounded integer arithmetic, or where several records must agree, and proves what they keep:

* **Limit orders** (`LimitMatching`, `LimitMarket`, `Ledger`): a price-time book with its market fees,
  maker discounts, deferred fees and cancellation fees. Every change of a balance or a fee account is a
  posting, so that a method's contract can state its whole effect on the ledger.
* **Smartcoins** (`Smartcoin`, `MarginCalls`, `MaxDebtToCover`, `ForceSettlement`, `SettledDebt`,
  `GlobalSettlement`, `GlobalSettling`, `CollateralBids`, `DebtPositions`, `AssetSettle`, `FeedPolicy`,
  `Runs`): debt positions, settle orders, the settlement pool with its debt order, the settlement fund and
  the collateral bids of one coin, on top of its market against the backing asset.
* **Credit offers** (`CreditDeals`, `CreditOffers`, `CreditExpiry`, `CreditCover`): offers, deals and summaries, with
  repayments and what happens to deals that are due.
* **Forks** (`ForkDatabase`, `ForkSwitch`, `StuckSwitch`, `UndoDatabase`): the tree of blocks, switching to a longer
  fork and back, and the undo sessions of the object database.
* **Sync** (`Synopsis`): the summary of a chain that a node sends, and the answer to it.
* **Block log** (`ByteFiles`, `BlockLog`): the two files of stored blocks, byte by byte.
* **Feeds and amounts** (`MedianFeeds`, `AmountStrings`): medians of price feeds, and amounts as strings.

`Options`, `Amounts`, `Sequences`, `Rounding`, `Prices` and `Sums` are shared.

What the source changes in place is a class whose methods change its fields; each method is proved against
functions and predicates of the state before, and the lemmas are about those. Hardfork gates are passed. A price
times a ratio is an exact rational. Integers are unbounded; where the source catches an overflow, or
where its widths decide, that is written out. `dafny verify dfyconfig.toml` checks everything.

The market and settlement engine is proved under any policy. The policy of this chain
(`libraries/chain/defishares_feed.cpp:126-139`) switches settlements and margin calls off for every coin that is not
a prediction market; `FeedPolicy.PolicyOf` states it, `AssetSettle.OnlyPredictionMarketsSettle` says what is left of
settling, and `Runs.RunUnderPolicy` what that means for whole runs. `DebtPositions.UpdateCallOrder` follows the rules that
the policy sets for managed positions.

## Model

| member | source | states |
|---|---|---|
| `Runs.Run` | libraries/chain/db_market.cpp:222-2543 | Under any policy, after any sequence of steps, by anybody and in any order: if the coin is not globally settled its supply is what the positions owe plus the debt of the settlement pool; if it is, there are no positions and no pool, and the fund pays for the whole supply at the settlement price. A debt order is always backed by the pool, and the pool is empty when the order is gone. The cached CORE in orders of every account is exact. No asset is created or lost. If settlements and margin calls are switched off, a coin with nothing but debt positions stays like that. In a prediction market every position keeps exactly as much collateral as debt, so that all collateral together is the supply, until it is settled. |
| `Runs.RunUnderPolicy` | libraries/chain/defishares_feed.cpp:126-139 | What this chain does: no run settles a coin that is not a prediction market in any way, and its supply is what its positions owe. |
| `Runs.TakeOrderStep` | libraries/chain/market_evaluator.cpp:40-149 | Each user operation on orders, positions and the response method keeps all of that. |
| `Runs.TakeMatchStep` | libraries/chain/db_market.cpp:341-2543 | So does each match and individual settlement; margin calls and what `check_call_orders` does need a policy that allows them. |
| `Runs.TakeFundStep` | libraries/chain/asset_evaluator.cpp:1204-1428 | So does each settlement against pool or fund, global settlement, bid and revival. |
| `LimitMatching.SmallerTaker` | libraries/chain/db_market.cpp:1075-1129 | A taker that fits into the maker gets exactly the floor of what it pays at the match price, never pays more than it has, and what it keeps buys nothing. |
| `LimitMatching.SmallerMaker` | libraries/chain/db_market.cpp:1075-1129 | The same for a maker that fits into the taker; the larger order gets the match price or better. |
| `LimitMatching.AmountsFit` | libraries/chain/db_market.cpp:1075-1129 | A match always uses up one of the two orders, so that the assertion against `none_filled` cannot fail. |
| `LimitMatching.AmountsAreExact` | libraries/chain/db_market.cpp:1075-1129 | Which order is the smaller one, and what both pay, to the last unit: the smaller one gets what its amount is worth at the maker's price rounded down, and pays the least for it. |
| `LimitMatching.FillRemovesDust` | libraries/chain/db_market.cpp:647-670 | An order is culled exactly when its rest is worth less than one unit. |
| `LimitMatching.SweepConsumesAPrefix` | libraries/chain/db_market.cpp:914-921 | A taker consumes makers as a price-time prefix, with at most one of them left partly filled, and stops only where it is used up or nothing crosses. |
| `LimitMatching.OlderIsFilledFirst` | libraries/chain/db_market.cpp:914-921 | Of two makers the one with the better price, or the older one at the same price, is gone before the other is touched. |
| `LimitMatching.UncrossedAfterSweep` | libraries/chain/db_market.cpp:914-942 | If the others on its side crossed no maker before, nobody crosses what is left. |
| `LimitMatching.AtRestMeans` | libraries/chain/db_market.cpp:742-942 | At rest every order buys something, and no two orders of the two sides offer each other what they ask for. |
| `LimitMatching.BookAfterSweep` | libraries/chain/db_market.cpp:914-942 | The book after a sweep is sorted, uncrossed and free of dust. |
| `LimitMatching.InsertSorted` | libraries/chain/include/graphene/chain/market_object.hpp:98-104 | Inserting by price and then id keeps the order of a side. |
| `LimitMatching.PlaceIsByPriceThenTime` | libraries/chain/include/graphene/chain/market_object.hpp:98-104 | A new order goes in front of all that offer strictly less for it, and behind all others: at its price it is the last. |
| `LimitMatching.BetterOrOlderIsInFront` | libraries/chain/include/graphene/chain/market_object.hpp:98-104 | On a sorted side an order with a better price, or an older one with the same price, is in front. |
| `LimitMarkets.LimitMarket.MatchLimitNormalLimit` | libraries/chain/db_market.cpp:1055-1131 | The two fills and their postings are those of the amounts above; never `NoneFilled`; all wealth is conserved. |
| `LimitMarkets.LimitMarket.MatchAgainstMakers` | libraries/chain/db_market.cpp:914-921 | The loop over the opposite side does what the recursive sweep does, with exactly its postings. |
| `LimitMarkets.LimitMarket.ApplyOrder` | libraries/chain/db_market.cpp:742-942 | A book at rest (sorted, uncrossed, no dust) with a new order in it comes to rest again, including the early return for an order that is not at the front. |
| `LimitMarkets.LimitMarket.CreateLimitOrder` | libraries/chain/market_evaluator.cpp:115-149 | A new order takes its funds and fee exactly when the balances and the fee pool can give them, and is refused without a trace otherwise; what comes of it is the sweep, and every asset is conserved over balances, orders, deferred fees, vesting, accumulated fees, fee pools and pending fees. |
| `LimitMarkets.LimitMarket.PlaceNewOrder` | libraries/chain/market_evaluator.cpp:115-149 | A new order is funded, exactly when it can be, and put behind all that offer as much for it and in front of all that offer less. |
| `LimitMarkets.LimitMarket.CanFundIffCovered` | libraries/chain/market_evaluator.cpp:115-149 | It can be funded exactly when what it posts brings no slot of the ledger below zero. |
| `LimitMarkets.LimitMarket.CancelByOwner` | libraries/chain/market_evaluator.cpp:486-506 | Cancelling gives back all that the order kept. |
| `LimitMarkets.LimitMarket.CancelLimitOrder` | libraries/chain/db_market.cpp:534-631 | What an order kept is refunded or paid as cancellation fee, to the last unit, and the cached CORE in orders follows. |
| `LimitMarkets.LimitMarket.CancelPostingsTotal` | libraries/chain/db_market.cpp:534-631 | The postings of a cancellation, with the fee in another asset rounded up, add up to exactly what the order kept of each asset. |
| `LimitMarkets.LimitMarket.CancelFeeIs` | libraries/chain/db_market.cpp:534-631 | A cancellation that is charged keeps the cancellation fee, up to the deferred fee, and the same part, rounded up, of a fee paid in another asset; one that is not charged keeps nothing. |
| `LimitMarkets.LimitMarket.FillLimitOrder` | libraries/chain/db_market.cpp:1784-1903 | The order pays, receives less market fees, settles its deferred fees and leaves the book when used up or dust; the whole ledger change is stated. |
| `LimitMarkets.LimitMarket.MatchGives` | libraries/chain/db_market.cpp:1784-1903 | In a match between two accounts each balance grows by what the other pays, less the market fee of a taker or of a maker; only a maker gets back part of its deferred fees. |
| `LimitMarkets.LimitMarket.DeferredPostingsTotal` | libraries/chain/db_market.cpp:1800-1860 | Maker discount, pool refund and final fee add up to the deferred fees. |
| `LimitMarkets.LimitMarket.DeferredIs` | libraries/chain/db_market.cpp:1800-1860 | A taker gets nothing of its deferred fee back; a maker gets the discount, rounded down, in the asset in which the fee was paid. |
| `LimitMarkets.LimitMarket.MaybeCullSmallOrder` | libraries/chain/db_market.cpp:647-670 | An order is cancelled exactly when it asks for nothing any more. |
| `LimitMarkets.LimitMarket.FillAtRest` | libraries/chain/db_market.cpp:1784-1903 | A fill against something that is not a limit order, with its culling, leaves the book at rest. |
| `LimitMarkets.LimitMarket.PayMarketFees` | libraries/chain/db_market.cpp:2592-2700 | The step-by-step split of a market fee posts exactly the shares of network, referrer, registrar and issuer. |
| `LimitMarkets.LimitMarket.MarketFeeIs` | libraries/chain/db_market.cpp:2558-2590 | Makers pay the maker's percentage, takers their own, or the maker's when there is none; rounded down, and never more than the limit. |
| `LimitMarkets.LimitMarket.SplitIs` | libraries/chain/db_market.cpp:2592-2700 | The share of the network, the reward out of the rest, and the referrer's share of the reward, each rounded down, and when there are none. |
| `LimitMarkets.LimitMarket.FeesGoTo` | libraries/chain/db_market.cpp:2592-2700 | Who gets the shares, also where two of them are the same account. |
| `LimitMarkets.LimitMarket.FeePostingsTotal` | libraries/chain/db_market.cpp:2592-2700 | These shares add up to the fee. |
| `Ledgers.Ledger.Adjust` | libraries/chain/db_balance.cpp:54-83 | A change of an amount is refused exactly when it would go below zero; the sums per asset follow. |
| `Prices.Stabilised` | libraries/protocol/asset.cpp:58-98 | Converting down and back up gives the least amount that buys the same; the rest buys nothing. |
| `Prices.ConvertGalois` | libraries/protocol/asset.cpp:58-76 | An amount is at most the floor exactly when its product is. |
| `Prices.ConvertUpGalois` | libraries/protocol/asset.cpp:77-98 | The ceiling is at most an amount exactly when the product is. |
| `MaxDebtToCover.GetMaxDebtToCover` | libraries/chain/market_object.cpp:61-300 | The result is the whole debt, or a positive part of it for which the position keeps collateral and ends above its target ratio; and it is no more than any part that does so with a unit of debt to spare. |
| `MaxDebtToCover.CoverToTarget` | libraries/chain/market_object.cpp:96-260 | The same for the part with a target; and as products are exact here, the larger estimate of the source is always good, so that its last search is never reached. |
| `MaxDebtToCover.SearchForward` | libraries/chain/market_object.cpp:262-296 | The last search ends with a result that meets the target. |
| `MaxDebtToCover.CoveredRaisesRatio` | libraries/chain/market_object.cpp:61-300 | Covering that part never lowers the ratio of a position that was below its target. |
| `ForceSettlement.ForceMatchIsFair` | libraries/chain/db_market.cpp:1451-1656 | 0 < settle receives <= call pays <= collateral, call receives <= what is settled, allowed and owed, and a position that stays open keeps its collateral per debt, across the capped price and all rounding branches. |
| `ForceSettlement.OnlyDustIsCulled` | libraries/chain/db_market.cpp:1451-1656 | What is cancelled of a settle order could not buy anything. |
| `ForceSettlement.SettledAtTheTerms` | libraries/chain/db_market.cpp:1451-1656 | Both amounts of a match are what the debt is worth at its terms, or, in a margin call that asks for more than the position's own collateral per debt, at that and the settle order's part of it; both rounded up or both down, and which; and what is not settled buys nothing. |
| `ForceSettlement.SettledUnlessDust` | libraries/chain/db_market.cpp:1451-1656 | When nothing is settled what could be settled buys nothing; the settle order is then cancelled if it is no more than that. |
| `ForceSettlement.CoverLimitMakesCallable` | libraries/chain/db_market.cpp:1451-1656 | The limit of `get_max_debt_to_cover` is all that a fair match needs. |
| `MarginCalls.MatchAmounts` | libraries/chain/db_market.cpp:1451-1656 | The branches of the source, step by step, compute the specified outcome. |
| `MarginCalls.MatchImpl` | libraries/chain/db_market.cpp:1451-1656 | At most the two orders change, by a fair outcome, with every invariant of the coin kept; each posting of the match is stated. |
| `MarginCalls.MatchMarginCall` | libraries/chain/db_market.cpp:2435-2500 | With the terms of a margin call no assumption is left but that the position is in margin call territory: the match is that of the limit from `get_max_debt_to_cover`, to the last posting; only that position changes, left open it keeps its collateral per debt, and the settle order goes only with what it bought, or because the rest of it buys nothing. |
| `MarginCalls.ApplyForceSettlement` | libraries/chain/db_market.cpp:945-1020 | A new settle order meets margin calls one after the other, each time the position with the least collateral per debt, with the amounts and postings of each match, until it is used up, or what is left buys nothing from a position, or no position is in margin call territory. Other orders do not change, nor do positions out of that territory; the others are closed or owe no more at no lower ratio. |
| `MarginCalls.FillSettleOrder` | libraries/chain/db_market.cpp:2009-2077 | The owner gets what is received less market fees and the settlement fee; the order goes when all of it is paid. |
| `MarginCalls.CancelSettleOrder` | libraries/chain/db_market.cpp:525-532 | The balance of a settle order goes back to its owner. |
| `MarginCalls.CreateSettleOrder` | libraries/chain/asset_evaluator.cpp:1400-1408 | A settle order takes its amount from the balance, or nothing happens. |
| `MarginCalls.LimitCallIsFair` | libraries/chain/db_market.cpp:1342-1428 | A limit order gets no more than the position pays, the position no more than it owes and it can pay; left open it keeps its ratio; the smaller order's rest buys nothing. |
| `MarginCalls.LimitCallIsAtThePrices` | libraries/chain/db_market.cpp:1342-1428 | What both get is the debt's worth at the match price and at the price the position pays, both rounded up when the position covers all that it may, and else both down, with a rest that buys nothing. |
| `MarginCalls.MatchLimitCall` | libraries/chain/db_market.cpp:1342-1428 | Both fills, for as much debt as `get_max_debt_to_cover` allows, with the margin call fee as the difference, keep all invariants; positions, order book and every posting are stated; a position left open never has a lower ratio. |
| `SettledDebt.PartialFillStaysBacked` | libraries/chain/db_market.cpp:1194-1241 | After a partial fill the rest of the fund still pays for the rest of the debt at the order's price, and the pool pays at least what the buyer gets: the collateral fee is not negative and the "Unexpected scene" branches are unreachable. |
| `SettledDebt.PoolPaysIsExact` | libraries/chain/db_market.cpp:1194-1241 | While the order asks for less than the fund the pool gives up its own share of the fund, rounded down; otherwise what the buyer gets. |
| `SettledDebt.TakerBuysFits` | libraries/chain/db_market.cpp:1133-1192 | A limit order as taker buys an amount that the pool can give. |
| `SettledDebt.TakerBuysIsExact` | libraries/chain/db_market.cpp:1133-1192 | A limit order that has enough takes all that is offered for all the debt; one that has less gets its worth at the order's price, rounded down, for the least debt, or nothing when that is nothing. |
| `SettledDebt.MakerBuysFits` | libraries/chain/db_market.cpp:1249-1332 | So does a limit order as maker. |
| `SettledDebt.MakerBuysIsExact` | libraries/chain/db_market.cpp:1249-1332 | The same at its own price for a limit order that was there before. |
| `SettledDebt.PoolPayoutKeepsRatio` | libraries/chain/asset_evaluator.cpp:1309-1332 | A settlement from the pool gets less than the fund for less than the debt and never lowers fund per debt. |
| `SettledDebt.PoolPayoutIsExact` | libraries/chain/asset_evaluator.cpp:1309-1332 | With all of the debt comes all of the fund; for less of it its share, rounded down, for the least debt whose share that is. |
| `Smartcoins.PricedOrderIsBacked` | libraries/chain/db_update.cpp:248-290 | However a feed prices the debt order, the fund can pay for the whole debt at its price. |
| `Smartcoins.PricedOrderIsExact` | libraries/chain/db_update.cpp:248-290 | The order asks for what the debt is worth at the margin call order price, rounded up, if the fund has that; else for the whole fund. |
| `Smartcoins.FeedPricesMean` | libraries/protocol/asset.cpp:297-332 | What a debt costs at the margin call order price and at the maximum short squeeze price, in terms of the feed and the ratios. |
| `Smartcoins.CalledMeans` | libraries/protocol/asset.cpp:342-350 | A position is in margin call territory when its collateral is worth no more than the maintenance ratio times its debt. |
| `Smartcoins.Smartcoin.FillCallOrder` | libraries/chain/db_market.cpp:1915-1986 | Collateral, debt, supply, cached CORE and the refund of a closed position change by exactly the amounts of the fill. |
| `Smartcoins.Smartcoin.CoverDebt` | libraries/chain/db_market.cpp:1915-1986 | Covered debt leaves supply and position together. |
| `Smartcoins.Smartcoin.IndividuallySettle` | libraries/chain/db_market.cpp:341-421 | The position is gone, its debt and its share of collateral are in the pool, and the debt order is created or repriced so that it is backed. |
| `GlobalSettlement.FundReceivesIsExact` | libraries/chain/db_market.cpp:341-421 | An individually settled position brings its collateral less the margin call fee into the pool, rounded up. |
| `Smartcoins.Smartcoin.UpdateSettledDebtOrder` | libraries/chain/db_update.cpp:248-290 | A new feed leaves a backed order. |
| `Smartcoins.Smartcoin.PoolTrades` | libraries/chain/db_market.cpp:1194-1241 | Pool, order, supply and collateral fee after a trade, with a fee that is not negative; the order is closed exactly when all debt is bought, and then pool debt and fund are both zero. |
| `Smartcoins.Smartcoin.MatchLimitSettledDebt` | libraries/chain/db_market.cpp:1133-1247 | A limit order takes the debt order at its price: what is left of both, and all postings. |
| `Smartcoins.Smartcoin.MatchSettledDebtLimit` | libraries/chain/db_market.cpp:1249-1340 | The debt order takes a limit order at the limit order's price: what is left of both, and all postings. |
| `Smartcoins.Smartcoin.CheckSettledDebtOrder` | libraries/chain/db_market.cpp:2504-2543 | The loop does what the recursive sweep does: limit orders are taken at their own prices, best first, until the debt order is gone or the best one offers less than it asks. |
| `GlobalSettlement.PayoutKeepsFunded` | libraries/chain/asset_evaluator.cpp:1241-1296 | fund * S0 >= supply * C0 is kept by every payout; so the fund always suffices, and the last settler empties both. |
| `GlobalSettlement.PayoutIsExact` | libraries/chain/asset_evaluator.cpp:1241-1296 | The last settler gives and gets all; every other gets what its amount is worth at the settlement price, rounded down, and gives the least debt that is worth as much. |
| `Smartcoins.Smartcoin.SettleFromFund` | libraries/chain/asset_evaluator.cpp:1230-1307 | Refused exactly for lack of balance or because nothing would be received; never because the fund is not sufficient. Supply and fund reach zero together. |
| `Smartcoins.Smartcoin.SettleFromPool` | libraries/chain/asset_evaluator.cpp:1309-1365 | Payout at the pool's price, at most the amount offered; the pool's fund per debt never falls, and debt is zero only when all was settled. |
| `Smartcoins.Smartcoin.CollateralFeeIs` | libraries/chain/asset_evaluator.cpp:1204-1228 | A settler keeps no more than its debt is worth at the margin call order price, rounded up; the fee is exactly what it would get beyond that. |
| `AssetSettle.Settle` | libraries/chain/asset_evaluator.cpp:1150-1428 | The whole operation under any policy, with exactly the conditions under which it is refused: fund, else pool, and only when the pool is used up a settle order for the rest, which meets margin calls. What is paid at once, and every posting of that, of the order and of each of its matches is stated. It never fails after it has begun to pay. |
| `AssetSettle.MaySettleMeans` | libraries/chain/asset_evaluator.cpp:1150-1200 | A globally settled coin may always be settled, and any other that is not a prediction market from its pool, or when force settlement is on and there is a feed. |
| `AssetSettle.SufficesMeans` | libraries/chain/asset_evaluator.cpp:1241-1332 | When an amount is too small to get anything for it, from the fund or from the pool. |
| `AssetSettle.OnlyPredictionMarketsSettle` | libraries/chain/asset_evaluator.cpp:1151-1200 | Under the policy of this chain the checks pass only for a prediction market that was globally settled. |
| `AssetSettle.SettlerPaysExactly` | libraries/chain/asset_evaluator.cpp:1204-1228 | A settlement changes the settler's own balances by exactly what it pays of the smartcoin, and what it gets of the collateral less the collateral fee and the market fee of a taker. |
| `GlobalSettling.GloballySettle` | libraries/chain/db_market.cpp:243-337 | The fund is the sum of what each position and the pool contribute; every borrower gets back exactly the rest, fees included in the account; the settlement price is supply over fund. |
| `GlobalSettling.CloseAll` | libraries/chain/db_market.cpp:283-321 | The loop from the least collateralised position on, with its change of price after the last margin call, gathers what each position owes by itself. |
| `GlobalSettling.ClosingOf` | libraries/chain/db_market.cpp:283-321 | No position pays more than its collateral, and the fund gets something from each. |
| `GlobalSettling.ClosingIsExact` | libraries/chain/db_market.cpp:283-321 | What a position pays and what of it the fund receives, rounded up and at most all: at the settlement price, or at that times the squeeze ratio, depending on whether it and whether any other is margin called. |
| `CollateralBids.SelectBids` | libraries/chain/db_maint.cpp:972-988 | The first pass finds the shortest prefix of acceptable bids that covers the supply, or the first bid that is not acceptable. |
| `GlobalSettlement.AcceptableMeans` | libraries/chain/db_maint.cpp:972-988 | A bid is acceptable when its collateral is worth more than the ratio times its debt. |
| `GlobalSettlement.ShareIsExact` | libraries/chain/db_maint.cpp:972-1014 | The fund's part that goes with a bid is its debt, at most the supply, at the settlement price, rounded down. |
| `CollateralBids.EnoughIsLeft` | libraries/chain/db_maint.cpp:993-1014 | What is left of the fund always covers what is left of the debt at the settlement price. |
| `CollateralBids.PositionIsAcceptable` | libraries/chain/db_maint.cpp:972-1014 | Every revived position, the last with its reduced debt included, has at least the collateral per debt of the accepted bid, and is acceptable itself. |
| `GlobalSettlement.LastBidIsNoWorse` | libraries/chain/db_maint.cpp:1004-1008 | The last bid gains by taking the remainder. |
| `CollateralBids.HandOut` | libraries/chain/db_maint.cpp:993-1016 | The second pass uses up debt and fund exactly: neither final assertion fails. |
| `CollateralBids.Hand` | libraries/chain/db_maint.cpp:996-1013 | Only the last selected bid takes the remainder. |
| `CollateralBids.ProcessBids` | libraries/chain/db_maint.cpp:951-1020 | Revives the coin exactly when the best acceptable bids cover the supply, or there is no supply; then these bids are the positions, which sum to supply and fund, and every other bidder gets its collateral back. Otherwise nothing changes. |
| `CollateralBids.BidCollateral` | libraries/chain/market_evaluator.cpp:830-912 | A new bid replaces the old one of its account and no other, whose collateral comes back; it is put behind all that offer as much collateral per debt and in front of all that offer less. |
| `CollateralBids.ReviveBitasset` | libraries/chain/db_market.cpp:423-476 | The issuer takes over debt and fund, at least as collateralised as the settlement price, and every bidder gets its collateral back; refused exactly when the issuer has a bid of its own and there is supply. |
| `CollateralBids.OwnBidBlocksRevival` | libraries/chain/db_market.cpp:423-449 | From every globally settled coin with supply that is not a prediction market an issuer that bids blocks the revival. |
| `CollateralBids.CancelBid` | libraries/chain/db_market.cpp:478-491 | The collateral of a bid goes back to its bidder. |
| `CollateralBids.CancelBids` | libraries/chain/db_market.cpp:460-469 | Each bidder gets back what it offered, and nobody else gets anything. |
| `CollateralBids.ExecuteBid` | libraries/chain/db_market.cpp:493-523 | A bid becomes a position with its collateral and the share of the fund, and the cached CORE in orders counts it. |
| `DebtPositions.UpdateCallOrder` | libraries/chain/market_evaluator.cpp:508-828 | Exactly the stated checks decide; debt and supply, collateral and balance change together, within the largest supply; a position left open meets the initial ratio, or its ratio rose without more debt; in a prediction market collateral and debt change by the same amount. |
| `DebtPositions.AllowedMeans` | libraries/chain/market_evaluator.cpp:508-828 | What all the checks come to, as ratios of collateral and debt before and after; in a prediction market both change by the same amount. |
| `DebtPositions.SupplyStaysPositive` | libraries/chain/market_evaluator.cpp:539-540 | The check that supply does not fall below zero is redundant. |
| `DebtPositions.SetResponse` | libraries/chain/asset_evaluator.cpp:784-805 | The response changes exactly when nothing is left of individual settlements. |
| `CreditOffers.DeletableIffNoDeals` | libraries/chain/credit_offer_evaluator.cpp:93-123 | An offer can be deleted exactly when no deal is on it. |
| `CreditOffers.SummaryIffDeal` | libraries/chain/credit_offer_evaluator.cpp:427-430 | A summary exists exactly when the borrower has a deal on the offer, so that "Internal error" cannot happen. |
| `CreditOffers.CurrentAtMostTotal` | libraries/chain/credit_offer_evaluator.cpp:209-218 | The comparison of the two balances is redundant. |
| `CreditOffers.AcceptKeeps` | libraries/chain/credit_offer_evaluator.cpp:313-350 | Accepting keeps offers, deals and summaries in step. |
| `CreditOffers.DebtGoes` | libraries/chain/credit_offer_evaluator.cpp:411-470 | So does paying off or losing a debt, in all three records. |
| `CreditOffers.LostOfferCannotBeUpdated` | libraries/chain/credit_offer_evaluator.cpp:208-209 | The check that the total is positive is not redundant: an offer that lost all its funds cannot be updated. |
| `CreditOffers.CreditBook.CreateOffer` | libraries/chain/credit_offer_evaluator.cpp:38-91 | An offer is created with funds from the owner, or nothing happens. |
| `CreditOffers.CreditBook.DeleteOffer` | libraries/chain/credit_offer_evaluator.cpp:93-123 | Exactly an offer without deals is deleted, by its owner, who gets back what is in it. |
| `CreditOffers.CreditBook.UpdateOffer` | libraries/chain/credit_offer_evaluator.cpp:125-227 | Refused exactly for the stated reasons; of the defensive checks only the positive total among them. |
| `CreditOffers.NewTermsAre` | libraries/chain/credit_offer_evaluator.cpp:186-220 | An update changes the terms that it gives and no other. |
| `CreditOffers.CreditBook.AcceptOffer` | libraries/chain/credit_offer_evaluator.cpp:229-371 | The exact conditions of a deal, its terms and its ends; the collateral is worth the debt at the offer's price; a deal can never end too late, and the check that it ends in the future fails exactly when the offer's duration is zero or time is at its end. |
| `CreditOffers.AcceptsMeans` | libraries/chain/credit_offer_evaluator.cpp:229-371 | What all the checks come to: the collateral is worth the debt at the offer's price, and a listed borrower's debts on the offer, all deals together, stay within its limit. |
| `CreditOffers.CreditBook.BorrowableIffItLasts` | libraries/chain/credit_offer_evaluator.cpp:319-330 | A deal never ends later than the longest deal may; it ends after its start exactly when the offer's duration is positive and time is not at its end; so nothing is accepted from an offer with duration zero. |
| `CreditOffers.CreditBook.RepayDeal` | libraries/chain/credit_offer_evaluator.cpp:373-473 | The exact conditions, the collateral released, and the new records and ledger. |
| `CreditOffers.CreditBook.UpdateDeal` | libraries/chain/credit_offer_evaluator.cpp:475-500 | Only the kind of automatic repayment changes. |
| `CreditDeals.PartialRelease` | libraries/chain/credit_offer_evaluator.cpp:444-456 | A partial repayment releases less than all, and never lowers collateral per debt. |
| `CreditDeals.RequiredFeeIs` | libraries/chain/credit_offer_evaluator.cpp:386-392 | The fee is its rate of the amount, rounded up. |
| `CreditDeals.ReleasedIs` | libraries/chain/credit_offer_evaluator.cpp:444-456 | A repayment releases its share of the collateral, rounded down. |
| `CreditDeals.DepositComesBack` | libraries/chain/credit_offer_evaluator.cpp:437-470 | Over any repayments that clear a deal the released collateral sums to the deposit. |
| `CreditDeals.RatioNeverFalls` | libraries/chain/credit_offer_evaluator.cpp:437-470 | After any of them collateral per debt is at least what it was at the start. |
| `CreditDeals.FeesCoverTheWhole` | libraries/chain/credit_offer_evaluator.cpp:386-392 | The fees of any repayments that clear a deal are at least the rounded-up fee on the whole debt. |
| `CreditDeals.AutoRepayIsAffordable` | libraries/chain/db_update.cpp:820-833 | An automatic partial repayment is always affordable with its fee, leaves some debt, and is the least that releases its collateral. |
| `CreditExpiry.AutoRepaidIsBest` | libraries/chain/db_update.cpp:802-861 | A due deal repays all when that is authorized and affordable; in part, where it may, so as to get back as much collateral as any affordable amount could release, for the least such amount. |
| `CreditExpiry.RepayAutomatically` | libraries/chain/db_update.cpp:802-861 | How much of a due deal is repaid, and all three records and every posting after that. |
| `CreditExpiry.ProcessDeal` | libraries/chain/db_update.cpp:795-900 | A due deal is gone; its offer gained what was repaid with the fee and lost the rest of the debt; the borrower got the collateral released by the repayment and the offer's owner the rest of it; all postings are stated. |
| `CreditExpiry.UpdateOffersAndDeals` | libraries/chain/db_update.cpp:773-900 | Afterwards no deal is past due, no offer is enabled past its time, and no deal that was not due has changed. Between before and after lies a run in which each round is the end of one due deal, with its amounts and postings. |
| `CreditExpiry.Run` | libraries/chain/credit_offer_evaluator.cpp:38-500 | Every run is a sequence of states, each of which follows from the one before by the step taken at its time: done as its operation says, or refused without a trace. In all of them the three records agree and no asset is created or lost. |
| `CreditCover.OpenDealsAreCovered` | libraries/chain/credit_offer_evaluator.cpp:38-500 | In every run that starts without deals each open deal was made by an acceptance, and its collateral still is worth its debt at the price the offer had then, whatever was repaid and whatever became of the offer since. |
| `ForkDatabase.FetchBranchFrom` | libraries/chain/fork_database.cpp:148-190 | Both branches down to where they first meet, found exactly when the tree still shows that. |
| `ForkSwitch.Chain.PushToTree` | libraries/chain/fork_database.cpp:56-98 | The tree with the new block, without what is too low for its size, or exactly the stated errors and no change. |
| `ForkSwitch.LinkedMeans` | libraries/chain/fork_database.cpp:56-98 | A block is refused when it is as far below the head as the tree reaches, or its parent is not in the tree; an empty tree takes any block. |
| `ForkSwitch.TreeWithMeans` | libraries/chain/fork_database.cpp:56-122 | A new highest block takes out of the tree exactly what is further below it than the tree reaches; any other takes out nothing. |
| `ForkSwitch.Chain.RemoveFromTree` | libraries/chain/fork_database.cpp:197-212 | A block leaves the tree, and the head steps back if it was the head. |
| `ForkSwitch.Chain.SetSizes` | libraries/chain/db_update.cpp:82-83 | Both sizes are set, and the tree is cut at once. |
| `ForkSwitch.SizeReachesBack` | libraries/chain/db_update.cpp:82-83 | From the block down to the last irreversible one. |
| `ForkSwitch.Chain.PopBlock` | libraries/chain/db_block.cpp:523-539 | State and undo stack go back one block, exactly when the stack and the tree still have it; the tree's head follows only if it was that block. |
| `ForkSwitch.Chain.PopTo` | libraries/chain/db_block.cpp:159-163 | Popping down to an ancestor succeeds exactly when the undo states reach it and the tree has every block on the way. |
| `ForkSwitch.Chain.ApplyInSession` | libraries/chain/db_block.cpp:169-176 | A block is applied in an undo session, or leaves no change but dropped old undo states and a smaller tree. |
| `ForkSwitch.Chain.ApplyBranch` | libraries/chain/db_block.cpp:166-178 | A branch is applied up to the first block that fails: how many blocks that is, the history and the tree after it, and whether the undo states of all of them are still there. |
| `ForkSwitch.Chain.SwitchForks` | libraries/chain/db_block.cpp:154-211 | How a switch ends, as a function of the states before, with state, tree head and tree in each case: the replay of the new branch; the state and tree head from before; or stuck, on the failed branch (`HalfWay`), or with all undo states used up before the ancestor was reached (`OutOfUndo`). |
| `ForkSwitch.Chain.GiveUp` | libraries/chain/db_block.cpp:179-209 | After a block failed the chain is back where it was exactly when the failed branch can still be popped. Otherwise it is left above the ancestor, on a state of the failed branch whose block the tree has lost or for which no undo state is left, under the old head of the tree. |
| `ForkSwitch.Chain.PushBlock` | libraries/chain/db_block.cpp:133-232 | The outcome of every pushed block as a function of the state before, and state, undo states and tree after it, for every outcome; the tree is in step with the chain exactly when the outcome is neither `NoBranch` nor `Stuck`. |
| `ForkSwitch.Chain.PushAll` | libraries/chain/db_block.cpp:133-232 | Over any run of blocks that fit together each outcome and each state follows from the one before, up to the first that blocks the way; the chain is in step exactly when none did, and then its head's number and finality never fell. |
| `ForkSwitch.Chain.UndoReachesFinality` | libraries/chain/db_update.cpp:82-83 | No fork point above finality is out of reach of the undo states. |
| `ForkSwitch.ReturnsIffShallow` | libraries/chain/db_block.cpp:179-209 | While nothing more becomes irreversible, a branch that fails can be left again exactly when it is at most three blocks longer than what was reversible at the fork point. |
| `StuckSwitch.StopsHalfWay` | libraries/chain/db_block.cpp:179-209 | From an empty chain seven blocks are pushed: three of one branch and then four of another, of which the second fails. The last push leaves the chain at the first block of the failed branch, out of step with the tree, whose head is the old one. |
| `StuckSwitch.FailsEarly` | libraries/chain/db_update.cpp:82-83 | Why: that branch fails when its first block has already been cut from the tree, which is the condition for not returning. |
| `ForkSwitch.Chain.OrphanIsAhead` | libraries/chain/db_block.cpp:147-156 | On an empty tree a first block with an unknown parent becomes the tree's head, and the chain stays behind it. |
| `ForkSwitch.HistoriesAgree` | libraries/chain/db_block.cpp:196-207 | Replaying the old branch gives the old states again: blocks apply deterministically. |
| `UndoDatabase.UndoRestores` | libraries/db/undo_database.cpp:108-136 | Undoing a session gives exactly the state at its start. |
| `UndoDatabase.MergeTracks` | libraries/db/undo_database.cpp:138-256 | A merged undo state describes both sessions; the combinations the source leaves out cannot occur. |
| `UndoDatabase.MergeIsUndoTwice` | libraries/db/undo_database.cpp:138-256 | Undoing it equals undoing the two sessions one after the other. |
| `UndoDatabase.UndoDatabase.Undo` | libraries/db/undo_database.cpp:108-136 | The whole stack stays valid, and the last session is undone. |
| `UndoDatabase.UndoDatabase.Merge` | libraries/db/undo_database.cpp:138-256 | The whole stack stays valid, with one session less. |
| `UndoDatabase.UndoDatabase.Remove` | libraries/db/undo_database.cpp:86-106 | Removing records enough to undo it, for new, changed and untouched objects. |
| `UndoDatabase.UndoDatabase.Modify` | libraries/db/undo_database.cpp:73-84 | Only the first change of an object is recorded. |
| `UndoDatabase.UndoDatabase.Create` | libraries/db/undo_database.cpp:60-71 | A new object gets a free id, and the counter is recorded. |
| `Synopsis.Summarize` | libraries/app/application.cpp:990-1015 | The k-th entry is the block at end + 1 - floor((end + 1 - low) / 2^k), every index into the fork history is in range, and the next height would be above the last block. |
| `Synopsis.SynopsisAscends` | libraries/app/application.cpp:997-1012 | Heights strictly increase, from the low block. |
| `Synopsis.SynopsisEndsAtHigh` | libraries/app/application.cpp:997-1012 | With nothing after the reference point there are exactly as many entries as binary digits of the count, and the last is the high block. |
| `Synopsis.GetBlockchainSynopsis` | libraries/app/application.cpp:901-1017 | Which chain is summarized from where, on the main chain, on a fork, or as a whole; refused exactly when the fork is too old. |
| `Synopsis.GetBlockIds` | libraries/app/application.cpp:771-817 | A contiguous run from the last recognised block on, with the right count of what remains. |
| `Synopsis.ResumesCloseBelow` | libraries/app/application.cpp:771-817 | If chains agree up to F, the answer resumes at some s <= F with F - s <= end - F. |
| `Synopsis.SyncRound` | libraries/app/application.cpp:771-1017 | One round of the protocol over any two chains has both properties. |
| `ByteFiles.EntryRoundTrip` | libraries/chain/block_database.cpp:31-40 | Index records decode to what was encoded. |
| `ByteFiles.LittleIs` | libraries/chain/block_database.cpp:31-40 | Each byte of a number in a record; the least significant one comes first. |
| `ByteFiles.WriteEntry` | libraries/chain/block_database.cpp:82-99 | Writing a record changes it alone and fills holes with records that mean nothing. |
| `BlockLog.BlockDatabase.Store` | libraries/chain/block_database.cpp:82-99 | The block is the contents for its number. |
| `BlockLog.BlockDatabase.Remove` | libraries/chain/block_database.cpp:101-118 | It is removed if it is the one stored under its number; an error exactly when the index does not reach it. |
| `BlockLog.BlockDatabase.Contains` | libraries/chain/block_database.cpp:120-134 | Exactly the blocks stored and not removed. |
| `BlockLog.BlockDatabase.FetchOptional` | libraries/chain/block_database.cpp:152-182 | The same, by id. |
| `BlockLog.BlockDatabase.FetchByNumber` | libraries/chain/block_database.cpp:184-211 | The same, by number, holes included. |
| `BlockLog.BlockDatabase.FetchBlockId` | libraries/chain/block_database.cpp:136-150 | The id stored last for the number, even if the block was removed. |
| `BlockLog.BlockDatabase.RemovedIdIsStillFetched` | libraries/chain/block_database.cpp:136-150 | A block that is stored and then removed is found neither by id nor by number, while its number still gives its id. |
| `BlockLog.BlockDatabase.LastStored` | libraries/chain/block_database.cpp:213-262 | On files in good order: the entry of the highest block that is stored, nothing stored is lost, and the order is kept. |
| `BlockLog.BlockDatabase.LastIndexEntry` | libraries/chain/block_database.cpp:213-262 | On any files: the highest readable record, with the index cut just above it, and nothing readable lost. |
| `MedianFeeds.NthElement` | libraries/chain/asset_object.cpp:106-110 | The library function it stands for: a permutation with the wanted element in place. |
| `MedianFeeds.PlacedIsMedian` | libraries/chain/asset_object.cpp:104-112 | That element is a median of the values in their original order. |
| `MedianFeeds.MajorityHoldsTheSettlementPrice` | libraries/chain/asset_object.cpp:104-126 | If a strict majority of the live feeds puts the price between two bounds then the median lies between them. |
| `MedianFeeds.MajorityHoldsTheExchangeRate` | libraries/chain/asset_object.cpp:104-126 | The same for the core exchange rate, which feeds may leave out: if most of them do, so does the median. |
| `MedianFeeds.MajorityHoldsTheRatio` | libraries/chain/asset_object.cpp:104-126 | The same for each ratio. |
| `MedianFeeds.MajorityHoldsEachRatio` | libraries/chain/asset_object.cpp:104-126 | That applies to maintenance, squeeze and initial ratio under the orders by which each is chosen. |
| `MedianFeeds.BitassetFeeds.LiveFeeds` | libraries/chain/asset_object.cpp:53-63 | Exactly the feeds that are alive, and the time of the oldest. |
| `MedianFeeds.LivesUntil` | libraries/chain/asset_object.cpp:53-63 | A published feed counts until its lifetime is over. |
| `MedianFeeds.BitassetFeeds.UpdateMedianFeeds` | libraries/chain/asset_object.cpp:48-136 | No median below the minimum of feeds; else each field is a median of submitted values, or given by the options or the fixed initial ratio. |
| `AmountStrings.RoundTrip` | libraries/chain/asset_object.cpp:163-231 | Parsing what was printed gives the amount back, for every precision and every amount up to the largest supply, "-0.x" included. |
| `AmountStrings.PrintsWritten` | libraries/chain/asset_object.cpp:219-231 | Sign, whole part and padded decimals of what is printed. |
| `AmountStrings.ParseAmount` | libraries/chain/asset_object.cpp:163-217 | The loops compute the specified result on every string. |
| `AmountStrings.ReadsAsWritten` | libraries/chain/asset_object.cpp:163-217 | Every accepted string whose only sign comes first is a sign, digits and decimals, and is read as that number; it is refused only if it has too many decimals, or is more than there may be, or has the point right behind the sign. |
| `AmountStrings.MisplacedSign` | libraries/chain/asset_object.cpp:185-213 | Every other accepted string, and what is read of it instead. |
| `AmountStrings.SignAmongWhole` | libraries/chain/asset_object.cpp:185-213 | With the sign before the point the first character is ignored, and so is what follows the sign, unless only one digit was before it. |
| `AmountStrings.SignAmongDecimals` | libraries/chain/asset_object.cpp:185-213 | With the sign behind the point the first character is ignored, and so are the decimals from the sign on, unless it is the first of them. |
| `AmountStrings.EscapesTheLimit` | libraries/chain/asset_object.cpp:185-213 | Behind a digit and a sign more is read than there may be of any asset. |

## Findings

Where the code does not keep what its own comments or checks suppose. Each has an exact condition and an input.

| what happens | exactly when | input |
|---|---|---|
| A failed switch to a longer fork is not undone: the chain stays on part of the failed branch, because applying it has already cut its blocks from the fork database (`libraries/chain/db_update.cpp:82-83`), and `pop_block` needs them. | not `ForkSwitch.CanReturn`; for a branch that makes nothing more irreversible, when it is longer than what was reversible at the fork point plus three (`ForkSwitch.ReturnsIffShallow`). Also when the undo states do not reach the fork point, which they do above finality. Where the chain stays then is stated by `ForkSwitch.HalfWay` and `ForkSwitch.OutOfUndo` | `StuckSwitch.StopsHalfWay` |
| A new head of the fork database that the chain cannot follow stays its head, ahead of the chain. | the outcome `NoBranch` in `ForkSwitch.Chain.PushBlock`: the block is linked and higher, does not follow the head, and has no common ancestor with it in the tree | `ForkSwitch.Chain.OrphanIsAhead` |
| An amount string with a sign inside is accepted, and read without its first character; it may then exceed the largest supply. | the only sign is not the first character (`AmountStrings.ReadsAsWritten`, `AmountStrings.MisplacedSign`) | `AmountStrings.EscapesTheLimit`; "12-3" without decimals reads as -2, and "1-2" as 2 |
| "-.5" is refused while ".5" is read. | a sign, no whole digits and a point (`AmountStrings.ReadsAsWritten`) | the same |
| An offer that lost all its funds cannot be updated without adding to it. | its total and what is added are not positive together (`CreditOffers.CreditBook.UpdateOffer`) | `CreditOffers.LostOfferCannotBeUpdated` |
| An offer that validates may still fail the check that a deal on it ends in the future. | its maximum duration is zero, or time is at its end (`CreditOffers.CreditBook.BorrowableIffItLasts`) | any offer with duration zero, in the same lemma |
| A globally settled coin is not revived by a feed although it could be. | there is supply, and the issuer has a bid of its own (`CollateralBids.ReviveBitasset`). Only under a policy that allows global settlement; on this chain no such coin exists (`Runs.RunUnderPolicy`) | `CollateralBids.OwnBidBlocksRevival` |
| `fetch_block_id` returns the id of a block that was removed. | the block stored last for the number was removed (`BlockLog.BlockDatabase.FetchBlockId`) | `BlockLog.BlockDatabase.RemovedIdIsStillFetched` |

## Left out

- Smartcoins.Smartcoin.MatchLimitSettledDebt: the book is at rest before; in the source a taker that has become dust while it was matched may meet the debt order, and is then culled without a trade.
- LimitMarkets.LimitMarket.ApplyOrder: only limit orders are in its loop. The debt order and the margin calls that a new order may meet in between are separate steps of `Runs.Run`.
- LimitMarkets.LimitMarket.CreateLimitOrder: market whitelists, asset authorisation, expiration, and `fill_or_kill`, which undoes the whole operation.
- MarginCalls.ApplyForceSettlement: the feed is fixed; under the response `no_settlement` the current feed can change after each fill, and limit orders are then matched in between.
- MarginCalls.MatchImpl: a limit of zero on the debt to settle is outside its precondition; `get_max_debt_to_cover` never gives that in margin call territory. So is a position that is not covered at the match price, when a settlement is not a margin call.
- Smartcoins.Smartcoin.FillCallOrder: `call_price`, which is no longer used for ordering, is not modelled.
- Runs.Run: one coin and one market; the cached CORE in orders is proved exact for these. The loops of `check_call_orders` and `check_for_blackswan`, which choose which match comes next, are left out: any choice keeps the invariants. So is the update of the current feed after a fill. What a step does is stated by the operation's own contract; the run states what they all keep.
- Runs.RunUnderPolicy: GOLD, whose debt is also held by a reserve vault, is not modelled.
- DebtPositions.UpdateCallOrder: margin calls after an update, which the policy switches off, and authorisation.
- Smartcoins.Smartcoin.PricedOrderIsBacked: besides the largest share supply, no overflow of 64 bits is modelled in prices; it is an exception that undoes the operation.
- DebtPositions.SetResponse: the permission bits of the issuer, and the other options of the coin.
- LimitMarkets.LimitMarket.FillLimitOrder: `on_fill` and take-profit orders are empty.
- GlobalSettling.GloballySettle: positions are keyed by borrower.
- Runs.TakeFundStep: the source refuses an operation at once when the coin is, or is not, globally settled as it should be; here that is a precondition of the methods, and a run skips such steps. The same holds for orders and positions that do not exist.
- CreditOffers.CreditBook.AcceptOffer: whether an account may hold an asset is a parameter, and 64-bit overflow is left out.
- ForkSwitch.Chain.PushBlock: the check of the block's signer, the block store, and pending and popped transactions. That the last irreversible block is never above the head, without which the source's subtraction would wrap, is not proved of `update_last_irreversible_block`.
- ForkSwitch.Chain.PushAll: that ids are hashes is the assumption `Consistent` on the blocks that are pushed.
- ForkDatabase.FetchBranchFrom: a parent is looked up in the tree by its id. The source follows a weak link that is set when a block is inserted, and that is dead for the children of a block that was removed and pushed again.
- ForkSwitch.Chain.RemoveFromTree: the head steps back to its parent by id, where the source follows the same weak link.
- UndoDatabase.UndoDatabase.Undo: indices are one map, keyed by kind and instance.
- Synopsis.GetBlockchainSynopsis: 32-bit wrap-around of heights, and the database that finds a fork's history, which is a parameter.
- BlockLog.BlockDatabase.LastIndexEntry: records whose position and size add up to more than 63 bits, for which the source's stream stops reading.
- BlockLog.BlockDatabase.Store: blocks that are stored under an id that is not their own.
- MedianFeeds.BitassetFeeds.UpdateMedianFeeds: whether the exchange rate was updated, and the cached ratios.
- MedianFeeds.NthElement: any permutation that puts the wanted element in its place is allowed; here it is found by selection.
- Networking, the API, the wallet, plugins, signatures, merkle roots, confidential transfers, genesis, worker and vesting rules, and behaviour before the hardforks.
