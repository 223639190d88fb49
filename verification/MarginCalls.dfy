/** Debt positions against force-settlement orders and against limit orders. */
module MarginCalls {
  import opened Options
  import opened Amounts
  import opened Rounding
  import opened Prices
  import opened Sums
  import opened Ledgers
  import opened LimitMatching
  import opened LimitMarkets
  import opened MaxDebtToCover
  import opened SettledDebt
  import opened GlobalSettlement
  import opened ForceSettlement
  import opened Smartcoins

  /** The postings of `fill_settle_order`: market fees, a force-settlement fee when the call
      order is not margin called, and the rest to the owner. */
  function SettleFillPostings(coin: Smartcoin, owner: Account, receives: nat, marketFee: nat,
                              settleFee: nat): seq<Posting>
    requires |coin.market.assets| == 2 && marketFee + settleFee <= receives
  {
    coin.market.FeePostings(owner, coin.CollateralAsset(), marketFee)
    + [ Posting(CollateralFees(coin.DebtAsset(), coin.CollateralAsset()), settleFee),
        Posting(Balance(owner, coin.CollateralAsset()), receives - marketFee - settleFee) ]
  }

  /** A settle order after it paid, gone when all of it is paid. */
  function AfterSettleFill(settles: map<nat, Settle>, id: nat, pays: nat): map<nat, Settle>
    requires id in settles && pays <= settles[id].balance
  {
    if pays == settles[id].balance then settles - {id}
    else settles[id := settles[id].(balance := settles[id].balance - pays)]
  }

  lemma AfterSettleFillTotal(settles: map<nat, Settle>, id: nat, pays: nat)
    requires id in settles && pays <= settles[id].balance
    ensures Balances(AfterSettleFill(settles, id, pays)) == Balances(settles) - pays
  {
    var f := (i: nat, s: Settle) => s.balance;
    if pays == settles[id].balance {
      SumRemove(settles, f, id);
    } else {
      SumPut(settles, f, id, settles[id].(balance := settles[id].balance - pays));
    }
  }

  /** `fill_settle_order`. The settle fee is a percentage of what is left after market fees. */
  method FillSettleOrder(coin: Smartcoin, id: nat, pays: nat, receives: nat, isMaker: bool, settleFeePercent: Percent)
    returns (filled: bool)
    requires coin.Coherent() && id in coin.settles && pays <= coin.settles[id].balance
    modifies coin`settles, coin.market.ledger`funds, coin.market.ledger`journal
    ensures coin.Coherent()
    ensures filled == (pays == old(coin.settles[id].balance))
    ensures coin.settles == old(AfterSettleFill(coin.settles, id, pays))
    ensures var marketFee := coin.market.MarketFee(coin.CollateralAsset(), receives, isMaker);
            coin.market.ledger.journal == old(coin.market.ledger.journal)
              + SettleFillPostings(coin, old(coin.settles[id].owner), receives, marketFee,
                                   CalculatePercent(receives - marketFee, settleFeePercent))
    ensures forall a :: coin.Total(a) == old(coin.Total(a))
              + (if a == coin.CollateralAsset() then receives else 0) - (if a == coin.DebtAsset() then pays else 0)
  {
    var s := coin.settles[id];
    AfterSettleFillTotal(coin.settles, id, pays);
    PaySettleOwner(coin, s.owner, receives, isMaker, settleFeePercent);
    filled := pays == s.balance;
    if filled {
      coin.settles := coin.settles - {id};
    } else {
      coin.settles := coin.settles[id := s.(balance := s.balance - pays)];
    }
  }

  method PaySettleOwner(coin: Smartcoin, owner: Account, receives: nat, isMaker: bool, settleFeePercent: Percent)
    requires coin.market.AtRest()
    modifies coin.market.ledger`funds, coin.market.ledger`journal
    ensures coin.market.AtRest()
    ensures var marketFee := coin.market.MarketFee(coin.CollateralAsset(), receives, isMaker);
            coin.market.ledger.journal == old(coin.market.ledger.journal)
              + SettleFillPostings(coin, owner, receives, marketFee,
                                   CalculatePercent(receives - marketFee, settleFeePercent))
    ensures forall a ::
      coin.market.Wealth(a) == old(coin.market.Wealth(a)) + if a == coin.CollateralAsset() then receives else 0
  {
    var marketFees := coin.market.TakeMarketFees(owner, coin.CollateralAsset(), receives, isMaker);
    var settleFees := CalculatePercent(receives - marketFees, settleFeePercent);
    coin.market.Give(CollateralFees(coin.DebtAsset(), coin.CollateralAsset()), settleFees);
    coin.market.Give(Balance(owner, coin.CollateralAsset()), receives - marketFees - settleFees);
  }

  /** `cancel_settle_order`. */
  method CancelSettleOrder(coin: Smartcoin, id: nat)
    requires coin.Coherent() && id in coin.settles
    modifies coin`settles, coin.market.ledger`funds, coin.market.ledger`journal
    ensures coin.Coherent()
    ensures forall a :: coin.Total(a) == old(coin.Total(a))
    ensures coin.settles == old(coin.settles) - {id}
    ensures coin.market.ledger.journal == old(coin.market.ledger.journal
              + [Posting(Balance(coin.settles[id].owner, coin.DebtAsset()), coin.settles[id].balance)])
  {
    var s := coin.settles[id];
    AfterSettleFillTotal(coin.settles, id, s.balance);
    coin.market.Give(Balance(s.owner, coin.DebtAsset()), s.balance);
    coin.settles := coin.settles - {id};
  }

  /** The rest of `asset_settle`: an amount of the smartcoin waits as a settle order. */
  method CreateSettleOrder(coin: Smartcoin, id: nat, owner: Account, amount: nat) returns (ok: bool)
    requires coin.Valid() && coin.settlementPrice.None? && id !in coin.settles && amount > 0
    modifies coin`settles, coin.market.ledger`funds, coin.market.ledger`journal
    ensures coin.Valid()
    ensures forall a :: coin.Total(a) == old(coin.Total(a))
    ensures ok <==> amount <= old(AmountIn(coin.market.ledger.funds, Balance(owner, coin.DebtAsset())))
    ensures coin.settles == if ok then old(coin.settles)[id := Settle(owner, amount)] else old(coin.settles)
    ensures ok ==>
      coin.market.ledger.journal
          == old(coin.market.ledger.journal) + [Posting(Balance(owner, coin.DebtAsset()), 0 - amount)]
    ensures !ok ==> coin.market.ledger.journal == old(coin.market.ledger.journal)
  {
    ok := coin.market.Post(Balance(owner, coin.DebtAsset()), 0 - amount);
    if ok {
      SumPut(coin.settles, (i: nat, s: Settle) => s.balance, id, Settle(owner, amount));
      coin.settles := coin.settles[id := Settle(owner, amount)];
    }
  }

  /** The journal after a settle order is paid, and after its rest goes back to its owner when it
      is culled. */
  function PaidJournal(journal: seq<Posting>, coin: Smartcoin, s: Settle, pays: nat, receives: nat, cull: bool,
                       isMaker: bool, settleFeePercent: Percent): seq<Posting>
    requires |coin.market.assets| == 2 && pays <= s.balance
  {
    var marketFee := coin.market.MarketFee(coin.CollateralAsset(), receives, isMaker);
    var paid := journal
      + SettleFillPostings(coin, s.owner, receives, marketFee,
                           CalculatePercent(receives - marketFee, settleFeePercent));
    if cull then paid + [Posting(Balance(s.owner, coin.DebtAsset()), s.balance - pays)] else paid
  }

  /** Fills a settle order, and then cancels the rest of it if it is to be culled. */
  method FillAndCull(coin: Smartcoin, id: nat, pays: nat, receives: nat, cull: bool, isMaker: bool,
                     settleFeePercent: Percent)
    requires coin.Coherent() && id in coin.settles && pays <= coin.settles[id].balance
    requires cull ==> pays < coin.settles[id].balance
    modifies coin`settles, coin.market.ledger`funds, coin.market.ledger`journal
    ensures coin.Coherent()
    ensures coin.settles == if cull then old(coin.settles) - {id} else old(AfterSettleFill(coin.settles, id, pays))
    ensures coin.market.ledger.journal
              == PaidJournal(old(coin.market.ledger.journal), coin, old(coin.settles[id]), pays, receives, cull,
                             isMaker, settleFeePercent)
    ensures forall a :: coin.Total(a) == old(coin.Total(a))
              + (if a == coin.CollateralAsset() then receives else 0) - (if a == coin.DebtAsset() then pays else 0)
  {
    ghost var settles := coin.settles;
    var filled := FillSettleOrder(coin, id, pays, receives, isMaker, settleFeePercent);
    if cull {
      CancelSettleOrder(coin, id);
      assert coin.settles == settles - {id};
    }
  }

  // ----- match_impl -----

  /** The case analysis of `match_impl`, step by step as the source computes it. */
  method MatchAmounts(call: Call, balance: nat, t: Terms) returns (o: Outcome)
    requires call.collateral > 0 && call.debt > 0 && balance > 0 && GoodTerms(t)
    ensures o == ForceMatch(call, balance, t)
  {
    var settleForSale := Min(balance, t.maxSettlement);
    var matchPrice, fillPrice := t.matchPrice, t.fillPrice;
    var callReceives: nat := Min(settleForSale, call.debt);
    var callPays: nat := Convert(callReceives, matchPrice);
    var settleReceives, settlePays: nat := callPays, callReceives;
    if callPays == 0 {
      if callReceives == call.debt {
        callPays, settleReceives := 1, 1;
      } else if callReceives == balance {
        return SettleOrderCancelled;
      } else if !t.isMarginCall {
        return NothingDone;
      } else {
        callPays, settleReceives := 1, 1;
      }
      return Settled(callPays, callReceives, settleReceives, false);
    }
    if callReceives == call.debt {
      callPays := ConvertUp(callReceives, matchPrice);
      settleReceives := callPays;
      if t.isMarginCall {
        if callPays > call.collateral {
          callPays := call.collateral;
          matchPrice := SwanPrice(call);
          fillPrice := FillPriceFor(matchPrice, t);
        }
        settleReceives := ConvertUp(callReceives, fillPrice);
      }
      return Settled(callPays, callReceives, settleReceives, false);
    }
    if !t.isMarginCall {
      callReceives := ConvertUp(callPays, Inverse(matchPrice));
    } else if settlePays == t.maxSettlement {
      callPays := ConvertUp(callReceives, matchPrice);
      settleReceives := ConvertUp(callReceives, fillPrice);
    } else {
      var r := Calculate(settlePays, matchPrice, fillPrice);
      if r.0 == 0 {
        return SettleOrderCancelled;
      }
      if WouldLowerRatio(call, r.2, r.1) {
        matchPrice := SwanPrice(call);
        fillPrice := FillPriceFor(matchPrice, t);
        r := Calculate(settlePays, matchPrice, fillPrice);
        if r.0 == 0 {
          return SettleOrderCancelled;
        }
      }
      settleReceives, callReceives, callPays := r.0, r.1, r.2;
    }
    return Settled(callPays, callReceives, settleReceives, settlePays == balance && callReceives != balance);
  }

  /** The journal after a match: the position pays its fee, and gets the rest of its collateral
      back when it is closed, and the settle order is paid; or it is cancelled. */
  function MatchJournal(journal: seq<Posting>, coin: Smartcoin, who: Account, calls: Calls, s: Settle, o: Outcome,
                        isMaker: bool, settleFeePercent: Percent): seq<Posting>
    requires |coin.market.assets| == 2
    requires o.Settled? ==>
      who in calls && o.callReceives <= s.balance && o.settleReceives <= o.callPays <= calls[who].collateral
  {
    match o
    case NothingDone => journal
    case SettleOrderCancelled => journal + [Posting(Balance(s.owner, coin.DebtAsset()), s.balance)]
    case Settled(callPays, callReceives, settleReceives, cull) =>
      PaidJournal(journal
                  + coin.ClosingPostings(who, Freed(calls, who, callPays, callReceives), callPays - settleReceives),
                  coin, s, callReceives, settleReceives, cull, isMaker, settleFeePercent)
  }

  /** Amounts that the two orders have, and that leave a position open only with collateral. */
  predicate CanCarryOut(call: Call, balance: nat, o: Outcome) {
    o.Settled? ==>
      && 0 < o.callReceives <= Min(balance, call.debt)
      && o.settleReceives <= o.callPays <= call.collateral
      && (o.callReceives < call.debt ==> o.callPays < call.collateral)
      && (o.cullSettleOrder ==> o.callReceives < balance)
  }

  /** Fills both orders of a settled match and keeps every invariant of the coin. */
  method CarryOut(coin: Smartcoin, id: nat, who: Account, o: Outcome, isMaker: bool, settleFeePercent: Percent)
    requires coin.Valid() && coin.settlementPrice.None? && id in coin.settles && who in coin.calls && o.Settled?
    requires CanCarryOut(coin.calls[who], coin.settles[id].balance, o)
    modifies coin`calls, coin`supply, coin`settles, coin.market.ledger
    ensures coin.Valid()
    ensures forall a :: coin.Total(a) == old(coin.Total(a))
    ensures coin.calls == old(AfterCallFill(coin.calls, who, o.callPays, o.callReceives))
    ensures coin.supply == old(coin.supply) - o.callReceives
    ensures coin.settles == SettlesAfter(old(coin.settles), id, o)
    ensures coin.market.ledger.journal
              == PaidJournal(old(coin.market.ledger.journal
                                 + coin.ClosingPostings(who, Freed(coin.calls, who, o.callPays, o.callReceives),
                                                                                   o.callPays - o.settleReceives)),
                             coin, old(coin.settles[id]), o.callReceives, o.settleReceives, o.cullSettleOrder,
                             isMaker, settleFeePercent)
  {
    coin.CoverDebt(who, o.callPays, o.callReceives, o.callPays - o.settleReceives);
    FillAndCull(coin, id, o.callReceives, o.settleReceives, o.cullSettleOrder, isMaker, settleFeePercent);
  }

  /** Carries out a match, whatever its outcome. */
  method CarryOutAny(coin: Smartcoin, id: nat, who: Account, o: Outcome, isMaker: bool, settleFeePercent: Percent)
    requires coin.Valid() && coin.settlementPrice.None? && id in coin.settles && who in coin.calls
    requires CanCarryOut(coin.calls[who], coin.settles[id].balance, o)
    modifies coin`calls, coin`supply, coin`settles, coin.market.ledger
    ensures coin.Valid()
    ensures forall a :: coin.Total(a) == old(coin.Total(a))
    ensures coin.calls == if o.Settled? then old(AfterCallFill(coin.calls, who, o.callPays, o.callReceives))
                          else old(coin.calls)
    ensures coin.supply == old(coin.supply) - if o.Settled? then o.callReceives else 0
    ensures coin.settles == SettlesAfter(old(coin.settles), id, o)
    ensures coin.market.ledger.journal
              == MatchJournal(old(coin.market.ledger.journal), coin, who, old(coin.calls), old(coin.settles[id]), o,
                              isMaker, settleFeePercent)
  {
    match o {
      case NothingDone =>
      case SettleOrderCancelled => CancelSettleOrder(coin, id);
      case Settled(_, _, _, _) => CarryOut(coin, id, who, o, isMaker, settleFeePercent);
    }
  }

  /** The settle orders after a match. */
  function SettlesAfter(settles: map<nat, Settle>, id: nat, o: Outcome): map<nat, Settle>
    requires id in settles && (o.Settled? ==> o.callReceives <= settles[id].balance)
  {
    match o
    case NothingDone => settles
    case SettleOrderCancelled => settles - {id}
    case Settled(_, receives, _, cull) => if cull then settles - {id} else AfterSettleFill(settles, id, receives)
  }

  lemma FairCanBeCarriedOut(call: Call, balance: nat, t: Terms)
    requires call.collateral > 0 && call.debt > 0 && balance > 0 && GoodTerms(t) && Callable(call, t)
    ensures FairMatch(call, balance, t, ForceMatch(call, balance, t))
    ensures CanCarryOut(call, balance, ForceMatch(call, balance, t))
  {
    ForceMatchIsFair(call, balance, t);
    OnlyDustIsCulled(call, balance, t);
  }

  /** `match_impl`: at most the two orders change, by amounts that are fair to both. Returns the
      debt that was covered. */
  method MatchImpl(coin: Smartcoin, id: nat, who: Account, t: Terms, settleIsTaker: bool, settleFeePercent: Percent)
    returns (covered: nat, ghost o: Outcome)
    requires coin.Valid() && coin.settlementPrice.None? && id in coin.settles && who in coin.calls
    requires GoodTerms(t) && Callable(coin.calls[who], t)
    modifies coin`calls, coin`supply, coin`settles, coin.market.ledger
    ensures coin.Valid()
    ensures forall a :: coin.Total(a) == old(coin.Total(a))
    ensures o == old(ForceMatch(coin.calls[who], coin.settles[id].balance, t))
    ensures FairMatch(old(coin.calls[who]), old(coin.settles[id].balance), t, o)
    ensures covered == (if o.Settled? then o.callReceives else 0) && coin.supply == old(coin.supply) - covered
    ensures coin.calls == if o.Settled? then old(AfterCallFill(coin.calls, who, o.callPays, o.callReceives))
                          else old(coin.calls)
    ensures coin.settles == SettlesAfter(old(coin.settles), id, o)
    ensures coin.market.ledger.journal
              == MatchJournal(old(coin.market.ledger.journal), coin, who, old(coin.calls), old(coin.settles[id]), o,
                              !settleIsTaker, if t.isMarginCall then 0 else settleFeePercent)
  {
    var outcome := MatchAmounts(coin.calls[who], coin.settles[id].balance, t);
    o := outcome;
    FairCanBeCarriedOut(coin.calls[who], coin.settles[id].balance, t);
    CarryOutAny(coin, id, who, outcome, !settleIsTaker, if t.isMarginCall then 0 else settleFeePercent);
    covered := if outcome.Settled? then outcome.callReceives else 0;
  }

  // ----- margin calls -----

  /** The terms of a margin call against a settle order: it relinquishes collateral at the
      maximum short squeeze price, and the settle order gets the margin call order price. */
  function MarginCallTerms(feed: Feed, maxDebtToCover: nat): Terms
    requires GoodFeed(feed)
  {
    Terms(MaxShortSqueezePrice(feed), MarginCallOrderPrice(feed), maxDebtToCover, true, MarginCallOrderRatio(feed),
          feed.mssr)
  }

  lemma ScaleMonotone(p: Price, q: Price, numerator: nat, numerator': nat, denominator: nat)
    requires Positive(p) && Positive(q) && 0 < numerator <= numerator' && denominator > 0
    requires AtMost(p, q)
    ensures AtMost(Scale(p, numerator, denominator), Scale(q, numerator', denominator))
  {
    var x, y := p.base * q.quote, q.base * p.quote;
    assert Scale(p, numerator, denominator).base * Scale(q, numerator', denominator).quote
        == x * (numerator * denominator);
    assert Scale(q, numerator', denominator).base * Scale(p, numerator, denominator).quote
        == y * (numerator' * denominator);
    MulLe(numerator, numerator', denominator);
    MulPos(numerator, denominator);
    MulLe(x, y, numerator * denominator);
    MulNonNeg(q.base, p.quote);
    MulLe(numerator * denominator, numerator' * denominator, y);
  }

  /** The margin call order price asks for less collateral than the position relinquishes. */
  lemma MarginCallTermsAreGood(feed: Feed, maxDebtToCover: nat)
    requires GoodFeed(feed)
    ensures GoodTerms(MarginCallTerms(feed, maxDebtToCover))
  {
    var ratio := MarginCallOrderRatio(feed);
    assert 0 < ratio <= feed.mssr;
    var p, q := MaxShortSqueezePrice(feed), MarginCallOrderPrice(feed);
    var x := feed.current.base * 1000;
    MulLe(ratio, feed.mssr, x * feed.current.quote);
    assert p.base * q.quote == ratio * (x * feed.current.quote);
    assert q.base * p.quote == feed.mssr * (x * feed.current.quote);
  }

  /** A position in margin call territory is not above its target ratio. */
  lemma CalledIsBelowTarget(call: Call, feed: Feed, ratio: nat)
    requires GoodFeed(feed) && call.collateral > 0 && call.debt > 0
    requires AtMost(Collateralization(call), MaintenanceCollateralization(feed)) && ratio >= feed.mcr
    ensures AtMost(Collateralization(call), Target(Inverse(feed.median), ratio))
  {
    ScaleMonotone(Inverse(feed.current), Inverse(feed.median), feed.mcr, ratio, 1000);
    AtMostTransitive(Collateralization(call), MaintenanceCollateralization(feed), Target(Inverse(feed.median), ratio));
  }

  /** An amount so small that a position pays nothing for it, at the margin call order price or
      at the price that its own collateral allows. */
  predicate BuysNothing(amount: nat, call: Call, feed: Feed)
    requires GoodFeed(feed) && call.collateral > 0 && call.debt > 0
  {
    MarginCallTermsAreGood(feed, 0);
    || Convert(amount, MarginCallOrderPrice(feed)) == 0
    || Convert(amount, FillPriceFor(SwanPrice(call), MarginCallTerms(feed, 0))) == 0
  }

  lemma DustBuysNothing(call: Call, balance: nat, feed: Feed, maxDebt: nat)
    requires GoodFeed(feed) && call.collateral > 0 && call.debt > 0 && balance > 0
    requires GoodTerms(MarginCallTerms(feed, maxDebt)) && Callable(call, MarginCallTerms(feed, maxDebt))
    ensures match ForceMatch(call, balance, MarginCallTerms(feed, maxDebt))
            case Settled(_, receives, _, cull) =>
              cull ==> receives < balance && BuysNothing(balance - receives, call, feed)
            case SettleOrderCancelled => BuysNothing(balance, call, feed)
            case NothingDone => true
  {
    var t := MarginCallTerms(feed, maxDebt);
    OnlyDustIsCulled(call, balance, t);
    var o := ForceMatch(call, balance, t);
    if o.SettleOrderCancelled? || (o.Settled? && o.cullSettleOrder) {
      var amount := if o.Settled? then balance - o.callReceives else balance;
      ConvertMonotone(amount, amount, t.fillPrice, t.matchPrice);
    }
  }

  /** A fill changes one position, which is closed or keeps its collateral per debt. */
  predicate OnlyOneChanged(before: Calls, after: Calls, who: Account, covered: nat)
    requires who in before
  {
    && after - {who} == before - {who}
    && (who in after <==> covered < before[who].debt)
    && (who in after ==>
          && after[who].debt == before[who].debt - covered
          && AtMost(Collateralization(before[who]), Collateralization(after[who])))
  }

  /** A settle order goes only with what it bought, or because the rest of it buys nothing. */
  predicate SettleOrderUsed(before: map<nat, Settle>, after: map<nat, Settle>, id: nat, covered: nat, call: Call,
                            feed: Feed)
    requires id in before && covered <= before[id].balance && GoodFeed(feed) && call.collateral > 0 && call.debt > 0
  {
    && after - {id} == before - {id}
    && if id in after then after[id] == Settle(before[id].owner, before[id].balance - covered)
       else BuysNothing(before[id].balance - covered, call, feed)
  }

  lemma FairMatchChangesOne(calls: Calls, who: Account, balance: nat, t: Terms, o: Outcome)
    requires who in calls && FairMatch(calls[who], balance, t, o)
    ensures o.Settled? ==>
      OnlyOneChanged(calls, AfterCallFill(calls, who, o.callPays, o.callReceives), who, o.callReceives)
    ensures !o.Settled? ==> calls[who].debt > 0 ==> OnlyOneChanged(calls, calls, who, 0)
  {
  }

  lemma MatchSpends(settles: map<nat, Settle>, id: nat, call: Call, feed: Feed, t: Terms, o: Outcome)
    requires GoodFeed(feed) && call.collateral > 0 && call.debt > 0 && id in settles && settles[id].balance > 0
    requires GoodTerms(t) && Callable(call, t) && t == MarginCallTerms(feed, t.maxSettlement)
    requires o == ForceMatch(call, settles[id].balance, t) && FairMatch(call, settles[id].balance, t, o)
    ensures SettleOrderUsed(settles, SettlesAfter(settles, id, o), id, if o.Settled? then o.callReceives else 0, call,
                            feed)
    ensures !o.Settled? ==> id !in SettlesAfter(settles, id, o)
  {
    DustBuysNothing(call, settles[id].balance, feed, t.maxSettlement);
  }

  /** What a settle order and a position change when they meet. */
  datatype Meeting = Meeting(calls: Calls, settles: map<nat, Settle>, supply: int, journal: seq<Posting>)

  ghost function MeetingOf(coin: Smartcoin): Meeting
    reads coin`calls, coin`settles, coin`supply, coin.market.ledger`journal
  {
    Meeting(coin.calls, coin.settles, coin.supply, coin.market.ledger.journal)
  }

  /** One margin call against a settle order, to the last posting. `limit` is what
      `get_max_debt_to_cover` returned. */
  ghost predicate MatchedAt(coin: Smartcoin, was: Meeting, b: Meeting, id: nat, who: Account, limit: nat, feed: Feed,
                            settleIsTaker: bool) {
    && |coin.market.assets| == 2 && GoodFeed(feed) && id in was.settles && who in was.calls
    && was.settles[id].balance > 0 && was.calls[who].collateral > 0 && was.calls[who].debt > 0
    && IsMaxDebt(was.calls[who], Inverse(MaxShortSqueezePrice(feed)), Inverse(feed.median), feed.mcr,
                 MaintenanceCollateralization(feed), limit)
    && var t := MarginCallTerms(feed, limit);
       && GoodTerms(t)
       && var o := ForceMatch(was.calls[who], was.settles[id].balance, t);
          && FairMatch(was.calls[who], was.settles[id].balance, t, o)
          && b.calls == (if o.Settled? then AfterCallFill(was.calls, who, o.callPays, o.callReceives) else was.calls)
          && b.settles == SettlesAfter(was.settles, id, o)
          && b.supply == was.supply - (if o.Settled? then o.callReceives else 0)
          && b.journal == MatchJournal(was.journal, coin, who, was.calls, was.settles[id], o, !settleIsTaker, 0)
  }

  /** The position with the least collateral per debt is called, if it is in margin call territory. */
  ghost predicate MeetsNext(coin: Smartcoin, was: Meeting, b: Meeting, id: nat, feed: Feed) {
    exists who, limit: nat ::
      && GoodFeed(feed) && IsLeast(was.calls, who)
      && AtMost(Collateralization(was.calls[who]), MaintenanceCollateralization(feed))
      && MatchedAt(coin, was, b, id, who, limit, feed, true)
  }

  predicate IsLeast(calls: Calls, who: Account) {
    who in calls && forall a {:trigger NotBelow(calls, who, a)} :: a in calls ==> NotBelow(calls, who, a)
  }

  predicate NotBelow(calls: Calls, who: Account, a: Account)
    requires who in calls && a in calls
  {
    AtMost(Collateralization(calls[who]), Collateralization(calls[a]))
  }

  ghost predicate MeetsRun(coin: Smartcoin, run: seq<Meeting>, id: nat, feed: Feed) {
    && run != []
    && forall i {:trigger MeetsNext(coin, run[i], run[i + 1], id, feed)} ::
         0 <= i < |run| - 1 ==> MeetsNext(coin, run[i], run[i + 1], id, feed)
  }

  lemma {:induction false} MeetsMore(coin: Smartcoin, run: seq<Meeting>, next: Meeting, id: nat, feed: Feed)
    requires MeetsRun(coin, run, id, feed) && MeetsNext(coin, run[|run| - 1], next, id, feed)
    ensures MeetsRun(coin, run + [next], id, feed) && (run + [next])[0] == run[0]
  {
  }

  /** The limit computed by `get_max_debt_to_cover` gives terms for a fair match. */
  method TermsOfMarginCall(call: Call, feed: Feed) returns (t: Terms)
    requires GoodFeed(feed) && call.collateral > 0 && call.debt > 0
    requires AtMost(Collateralization(call), MaintenanceCollateralization(feed))
    ensures GoodTerms(t) && Callable(call, t) && t == MarginCallTerms(feed, t.maxSettlement)
    ensures IsMaxDebt(call, Inverse(MaxShortSqueezePrice(feed)), Inverse(feed.median), feed.mcr,
                      MaintenanceCollateralization(feed), t.maxSettlement)
  {
    var maxDebt := GetMaxDebtToCover(call, Inverse(MaxShortSqueezePrice(feed)), Inverse(feed.median), feed.mcr,
                                     MaintenanceCollateralization(feed));
    MarginCallTermsAreGood(feed, maxDebt);
    t := MarginCallTerms(feed, maxDebt);
    if call.targetRatio.Some? {
      var ratio := if call.targetRatio.value > feed.mcr then call.targetRatio.value else feed.mcr;
      CalledIsBelowTarget(call, feed, ratio);
      CoverLimitMakesCallable(call, t, Target(Inverse(feed.median), ratio));
    }
  }

  /** One round of `apply_force_settlement` and `match_force_settlements`: the match is fair
      without further assumptions, and the settle order goes only with what it bought, or
      because the rest of it buys nothing. */
  method MatchMarginCall(coin: Smartcoin, id: nat, who: Account, feed: Feed, settleIsTaker: bool)
    returns (covered: nat, ghost limit: nat)
    requires coin.Valid() && coin.settlementPrice.None? && id in coin.settles && who in coin.calls && GoodFeed(feed)
    requires AtMost(Collateralization(coin.calls[who]), MaintenanceCollateralization(feed))
    modifies coin`calls, coin`supply, coin`settles, coin.market.ledger
    ensures coin.Valid()
    ensures forall a :: coin.Total(a) == old(coin.Total(a))
    ensures coin.supply == old(coin.supply) - covered
    ensures covered <= Min(old(coin.settles[id].balance), old(coin.calls[who].debt))
    ensures OnlyOneChanged(old(coin.calls), coin.calls, who, covered)
    ensures SettleOrderUsed(old(coin.settles), coin.settles, id, covered, old(coin.calls[who]), feed)
    ensures covered == 0 ==> coin.calls == old(coin.calls) && id !in coin.settles
    ensures MatchedAt(coin, old(MeetingOf(coin)), MeetingOf(coin), id, who, limit, feed, settleIsTaker)
  {
    var t := TermsOfMarginCall(coin.calls[who], feed);
    limit := t.maxSettlement;
    ghost var settles, calls := coin.settles, coin.calls;
    ghost var o;
    covered, o := MatchImpl(coin, id, who, t, settleIsTaker, 0);
    FairMatchChangesOne(calls, who, settles[id].balance, t, o);
    MatchSpends(settles, id, calls[who], feed, t, o);
  }

  /** The position with the least collateral per debt. */
  method LeastCollateralized(calls: Calls) returns (who: Account)
    requires calls != map[]
    requires forall a :: a in calls ==> calls[a].debt > 0 && calls[a].collateral > 0
    ensures IsLeast(calls, who)
  {
    who :| who in calls;
    var rest := calls.Keys - {who};
    while rest != {}
      invariant who in calls && who !in rest && rest <= calls.Keys
      invariant forall a ::
        a in calls && a !in rest ==> AtMost(Collateralization(calls[who]), Collateralization(calls[a]))
      decreases |rest|
    {
      var next :| next in rest;
      rest := rest - {next};
      if Below(Collateralization(calls[next]), Collateralization(calls[who])) {
        forall a | a in calls && a !in rest
          ensures AtMost(Collateralization(calls[next]), Collateralization(calls[a]))
        {
          if a != next {
            AtMostTransitive(Collateralization(calls[next]), Collateralization(calls[who]),
                             Collateralization(calls[a]));
          }
        }
        who := next;
      }
    }
    assert forall a {:trigger NotBelow(calls, who, a)} :: a in calls ==> NotBelow(calls, who, a);
  }

  lemma AllAbove(calls: Calls, least: Account, bound: Price)
    requires Positive(bound) && IsLeast(calls, least) && Below(bound, Collateralization(calls[least]))
    requires forall a :: a in calls ==> calls[a].debt > 0 && calls[a].collateral > 0
    ensures forall a :: a in calls ==> Below(bound, Collateralization(calls[a]))
  {
    forall a | a in calls
      ensures Below(bound, Collateralization(calls[a]))
    {
      assert NotBelow(calls, least, a);
      if AtMost(Collateralization(calls[a]), bound) {
        AtMostTransitive(Collateralization(calls[least]), Collateralization(calls[a]), bound);
      }
    }
  }

  /** No position is in margin call territory. */
  predicate NobodyIsCalled(calls: Calls, maintenance: Price) {
    forall a :: a in calls ==> Below(maintenance, Collateralization(calls[a]))
  }

  /** The position that is called first, if any is in margin call territory. */
  method LeastInTerritory(calls: Calls, maintenance: Price) returns (r: Option<Account>)
    requires Positive(maintenance)
    requires PositiveCalls(calls)
    ensures r.Some? ==> IsLeast(calls, r.value) && AtMost(Collateralization(calls[r.value]), maintenance)
    ensures r.None? ==> NobodyIsCalled(calls, maintenance)
  {
    if calls == map[] {
      return None;
    }
    var who := LeastCollateralized(calls);
    if Below(maintenance, Collateralization(calls[who])) {
      AllAbove(calls, who, maintenance);
      return None;
    }
    r := Some(who);
  }

  /** What margin calls leave of a position: one out of margin call territory is as it was, and
      any other is closed or has no more debt and at least its collateral per debt. */
  predicate NoWorse(before: Calls, after: Calls, maintenance: Price, a: Account) {
    && (a in after ==>
          && a in before && after[a].debt <= before[a].debt
          && AtMost(Collateralization(before[a]), Collateralization(after[a])))
    && (a in before && Below(maintenance, Collateralization(before[a])) ==> a in after && after[a] == before[a])
  }

  ghost predicate Called(before: Calls, after: Calls, maintenance: Price) {
    forall a {:trigger NoWorse(before, after, maintenance, a)} :: NoWorse(before, after, maintenance, a)
  }

  /** Too small to buy anything from a position, as collateralised as at the start or better. */
  ghost predicate Exhausted(amount: nat, calls: Calls, feed: Feed)
    requires GoodFeed(feed)
  {
    exists who, c: Call ::
      && who in calls && c.collateral > 0 && c.debt > 0
      && AtMost(Collateralization(calls[who]), Collateralization(c)) && BuysNothing(amount, c, feed)
  }

  lemma CalledOnceMore(before: Calls, now: Calls, after: Calls, maintenance: Price, who: Account, covered: nat)
    requires Called(before, now, maintenance) && Positive(maintenance)
    requires PositiveCalls(before) && PositiveCalls(now) && PositiveCalls(after)
    requires who in now && OnlyOneChanged(now, after, who, covered)
    requires AtMost(Collateralization(now[who]), maintenance)
    ensures Called(before, after, maintenance)
  {
    forall a
      ensures NoWorse(before, after, maintenance, a)
    {
      assert NoWorse(before, now, maintenance, a);
      if a == who {
        if who in after {
          AtMostTransitive(Collateralization(before[who]), Collateralization(now[who]), Collateralization(after[who]));
        }
      } else {
        assert a in now <==> a in now - {who};
        assert a in after <==> a in after - {who};
      }
    }
  }

  /** How far margin calls have used a settle order up. */
  ghost predicate Met(before: map<nat, Settle>, after: map<nat, Settle>, id: nat, covered: int, calls: Calls,
                      feed: Feed)
    requires id in before && GoodFeed(feed)
  {
    && 0 <= covered <= before[id].balance
    && after - {id} == before - {id}
    && if id in after then after[id] == Settle(before[id].owner, before[id].balance - covered)
       else Exhausted(before[id].balance - covered, calls, feed)
  }

  /** A settle order met margin calls until it was used up, or no position is in margin call
      territory any more. */
  ghost predicate RestMet(calls: Calls, calls': Calls, settles: map<nat, Settle>, settles': map<nat, Settle>, id: nat,
                          covered: int, feed: Feed)
    requires GoodFeed(feed) && id in settles
  {
    && Called(calls, calls', MaintenanceCollateralization(feed))
    && Met(settles, settles', id, covered, calls, feed)
    && (id in settles' ==> NobodyIsCalled(calls', MaintenanceCollateralization(feed)))
  }

  /** `apply_force_settlement`: a new settle order meets margin calls, least collateralised
      first, until it is used up or no position is in margin call territory. */
  method ApplyForceSettlement(coin: Smartcoin, id: nat, feed: Feed) returns (ghost run: seq<Meeting>)
    requires coin.Valid() && coin.settlementPrice.None? && id in coin.settles && GoodFeed(feed)
    modifies coin`calls, coin`supply, coin`settles, coin.market.ledger
    ensures coin.Valid()
    ensures forall a :: coin.Total(a) == old(coin.Total(a))
    ensures RestMet(old(coin.calls), coin.calls, old(coin.settles), coin.settles, id, old(coin.supply) - coin.supply,
                    feed)
    ensures MeetsRun(coin, run, id, feed) && run[0] == old(MeetingOf(coin)) && run[|run| - 1] == MeetingOf(coin)
  {
    PositionsArePositive(coin);
    MeetsStart(coin, MeetingOf(coin), id, feed);
    run := MeetMarginCalls(coin, id, feed, [MeetingOf(coin)]);
  }

  /** The loop over the positions in margin call territory. */
  method MeetMarginCalls(coin: Smartcoin, id: nat, feed: Feed, ghost start: seq<Meeting>)
    returns (ghost run: seq<Meeting>)
    requires coin.Valid() && coin.settlementPrice.None? && GoodFeed(feed)
    requires MeetsTo(coin, start, MeetingOf(coin), id, feed)
    modifies coin`calls, coin`supply, coin`settles, coin.market.ledger
    ensures coin.Valid()
    ensures forall a :: coin.Total(a) == old(coin.Total(a))
    ensures MeetsTo(coin, run, MeetingOf(coin), id, feed) && run[0] == start[0]
    ensures id in coin.settles ==> NobodyIsCalled(coin.calls, MaintenanceCollateralization(feed))
  {
    run := start;
    var someCalled := true;
    while someCalled && id in coin.settles
      invariant coin.Valid()
      invariant forall a :: coin.Total(a) == old(coin.Total(a))
      invariant MeetsTo(coin, run, MeetingOf(coin), id, feed) && run[0] == start[0]
      invariant !someCalled ==> NobodyIsCalled(coin.calls, MaintenanceCollateralization(feed))
      decreases someCalled, if id in coin.settles then 1 + coin.supply else 0
    {
      someCalled, run := MeetNext(coin, id, feed, run);
    }
  }

  method MeetNext(coin: Smartcoin, id: nat, feed: Feed, ghost run: seq<Meeting>)
    returns (someCalled: bool, ghost longer: seq<Meeting>)
    requires coin.Valid() && coin.settlementPrice.None? && id in coin.settles && GoodFeed(feed)
    requires MeetsTo(coin, run, MeetingOf(coin), id, feed)
    modifies coin`calls, coin`supply, coin`settles, coin.market.ledger
    ensures coin.Valid()
    ensures forall a :: coin.Total(a) == old(coin.Total(a))
    ensures MeetsTo(coin, longer, MeetingOf(coin), id, feed) && longer[0] == run[0]
    ensures someCalled ==> id in coin.settles ==> coin.supply < old(coin.supply)
    ensures !someCalled ==> NobodyIsCalled(coin.calls, MaintenanceCollateralization(feed))
  {
    PositionsArePositive(coin);
    var called := LeastInTerritory(coin.calls, MaintenanceCollateralization(feed));
    someCalled, longer := called.Some?, run;
    if someCalled {
      longer := MeetMarginCall(coin, id, called.value, feed, run);
    }
  }

  /** How far a settle order has met margin calls, and what that means for it and the positions. */
  ghost predicate MeetsTo(coin: Smartcoin, run: seq<Meeting>, b: Meeting, id: nat, feed: Feed) {
    && MeetsRun(coin, run, id, feed) && run[|run| - 1] == b && GoodFeed(feed) && id in run[0].settles
    && PositiveCalls(run[0].calls)
    && Called(run[0].calls, b.calls, MaintenanceCollateralization(feed))
    && Met(run[0].settles, b.settles, id, run[0].supply - b.supply, run[0].calls, feed)
  }

  method MeetMarginCall(coin: Smartcoin, id: nat, who: Account, feed: Feed, ghost run: seq<Meeting>)
    returns (ghost longer: seq<Meeting>)
    requires coin.Valid() && coin.settlementPrice.None? && id in coin.settles && IsLeast(coin.calls, who)
    requires GoodFeed(feed)
    requires AtMost(Collateralization(coin.calls[who]), MaintenanceCollateralization(feed))
    requires MeetsTo(coin, run, MeetingOf(coin), id, feed)
    modifies coin`calls, coin`supply, coin`settles, coin.market.ledger
    ensures coin.Valid()
    ensures forall a :: coin.Total(a) == old(coin.Total(a))
    ensures MeetsTo(coin, longer, MeetingOf(coin), id, feed) && longer[0] == run[0]
    ensures id in coin.settles ==> coin.supply < old(coin.supply)
  {
    ghost var was := MeetingOf(coin);
    PositionsArePositive(coin);
    var covered;
    ghost var limit;
    covered, limit := MatchMarginCall(coin, id, who, feed, true);
    PositionsArePositive(coin);
    MeetsOneMore(coin, run, was, MeetingOf(coin), id, who, limit, covered, feed);
    longer := run + [MeetingOf(coin)];
  }

  predicate PositiveCalls(calls: Calls) {
    forall a :: a in calls ==> calls[a].debt > 0 && calls[a].collateral > 0
  }

  lemma {:induction false} PositionsArePositive(coin: Smartcoin)
    requires coin.Valid()
    ensures PositiveCalls(coin.calls)
  {
  }

  lemma {:induction false} MeetsStart(coin: Smartcoin, m: Meeting, id: nat, feed: Feed)
    requires GoodFeed(feed) && id in m.settles && PositiveCalls(m.calls)
    ensures MeetsTo(coin, [m], m, id, feed)
  {
    forall a
      ensures NoWorse(m.calls, m.calls, MaintenanceCollateralization(feed), a)
    {
    }
  }

  lemma {:induction false} MeetsOneMore(coin: Smartcoin, run: seq<Meeting>, was: Meeting, b: Meeting, id: nat,
                                        who: Account, limit: nat, covered: nat, feed: Feed)
    requires MeetsTo(coin, run, was, id, feed) && MatchedAt(coin, was, b, id, who, limit, feed, true)
    requires IsLeast(was.calls, who) && AtMost(Collateralization(was.calls[who]), MaintenanceCollateralization(feed))
    requires PositiveCalls(was.calls) && PositiveCalls(b.calls)
    requires OnlyOneChanged(was.calls, b.calls, who, covered) && b.supply == was.supply - covered
    requires covered <= was.settles[id].balance
    requires SettleOrderUsed(was.settles, b.settles, id, covered, was.calls[who], feed)
    ensures MeetsTo(coin, run + [b], b, id, feed)
  {
    assert MeetsNext(coin, was, b, id, feed);
    MeetsMore(coin, run, b, id, feed);
    StaysMet(run[0], was, b, id, who, covered, feed);
  }

  lemma {:induction false} StaysMet(first: Meeting, was: Meeting, b: Meeting, id: nat, who: Account, covered: nat,
                                    feed: Feed)
    requires GoodFeed(feed) && id in first.settles && id in was.settles && who in was.calls
    requires PositiveCalls(first.calls) && PositiveCalls(was.calls) && PositiveCalls(b.calls)
    requires Called(first.calls, was.calls, MaintenanceCollateralization(feed))
    requires Met(first.settles, was.settles, id, first.supply - was.supply, first.calls, feed)
    requires AtMost(Collateralization(was.calls[who]), MaintenanceCollateralization(feed))
    requires OnlyOneChanged(was.calls, b.calls, who, covered) && b.supply == was.supply - covered
    requires covered <= was.settles[id].balance
    requires SettleOrderUsed(was.settles, b.settles, id, covered, was.calls[who], feed)
    ensures Called(first.calls, b.calls, MaintenanceCollateralization(feed))
    ensures Met(first.settles, b.settles, id, first.supply - b.supply, first.calls, feed)
  {
    CalledOnceMore(first.calls, was.calls, b.calls, MaintenanceCollateralization(feed), who, covered);
    MetOnceMore(first.settles, was.settles, b.settles, id, first.supply - was.supply, covered, first.calls, was.calls,
                who, feed);
  }

  lemma MetOnceMore(settles: map<nat, Settle>, was: map<nat, Settle>, after: map<nat, Settle>, id: nat,
                    before: int, covered: nat, calls: Calls, now: Calls, who: Account, feed: Feed)
    requires GoodFeed(feed) && id in settles && Met(settles, was, id, before, calls, feed)
    requires Called(calls, now, MaintenanceCollateralization(feed)) && who in now && now[who].collateral > 0
    requires now[who].debt > 0
    requires id in was && covered <= was[id].balance && SettleOrderUsed(was, after, id, covered, now[who], feed)
    ensures Met(settles, after, id, before + covered, calls, feed)
  {
    if id !in after {
      ExhaustedBy(was[id].balance - covered, calls, now, who, feed);
    }
  }

  lemma ExhaustedBy(amount: nat, before: Calls, now: Calls, who: Account, feed: Feed)
    requires GoodFeed(feed) && Called(before, now, MaintenanceCollateralization(feed)) && who in now
    requires now[who].collateral > 0 && now[who].debt > 0 && BuysNothing(amount, now[who], feed)
    ensures Exhausted(amount, before, feed)
  {
    assert NoWorse(before, now, MaintenanceCollateralization(feed), who);
  }

  // ----- a limit order against a margin call -----

  datatype CallTrade = CallTrade(callPays: nat, callReceives: nat, orderReceives: nat, cullTaker: bool)

  /** The arithmetic of matching a limit order with a call order, prices in debt per collateral. */
  function LimitCallAmounts(forSale: nat, toBuy: nat, matchPrice: Price, paysPrice: Price): CallTrade
    requires Positive(matchPrice) && Positive(paysPrice)
  {
    if toBuy > forSale then
      var orderReceives := Convert(forSale, matchPrice);
      var callReceives := ConvertUp(orderReceives, Inverse(matchPrice));
      CallTrade(Convert(callReceives, paysPrice), callReceives, orderReceives, true)
    else
      CallTrade(ConvertUp(toBuy, paysPrice), toBuy, ConvertUp(toBuy, matchPrice), false)
  }

  /** The limit order gets what its debt is worth at the match price, and the position pays what that is
      worth at its own, both rounded up when the position covers all that it may, and both rounded
      down when the limit order is the smaller one, which then gives no more than that costs and
      keeps only what buys nothing. */
  lemma LimitCallIsAtThePrices(forSale: nat, toBuy: nat, matchPrice: Price, paysPrice: Price)
    requires Positive(matchPrice) && Positive(paysPrice)
    ensures var x := LimitCallAmounts(forSale, toBuy, matchPrice, paysPrice);
            && x.cullTaker == (toBuy > forSale)
            && Worth(x.orderReceives, x.callReceives, matchPrice, !x.cullTaker)
            && Worth(x.callPays, x.callReceives, paysPrice, !x.cullTaker)
            && (if x.cullTaker then LeavesDust(forSale, x.callReceives, matchPrice) else x.callReceives == toBuy)
  {
    StabilisedIsWorth(forSale, matchPrice);
    RoundedIsWorth(toBuy, matchPrice);
    RoundedIsWorth(toBuy, paysPrice);
    RoundedIsWorth(LimitCallAmounts(forSale, toBuy, matchPrice, paysPrice).callReceives, paysPrice);
  }

  /** The assertion `call_pays >= order_receives` holds, the position can pay, and left open it
      keeps its ratio; and the order's leftover, if it is the smaller one, buys nothing. */
  lemma LimitCallIsFair(call: Call, forSale: nat, toBuy: nat, matchPrice: Price, paysPrice: Price)
    requires call.collateral > 0 && call.debt > 0 && Positive(matchPrice) && Positive(paysPrice)
    requires AtMost(paysPrice, matchPrice) && AtMost(SwanPrice(call), paysPrice)
    requires 0 < toBuy <= call.debt && Convert(forSale, matchPrice) > 0
    requires toBuy < call.debt ==> !WouldLowerRatio(call, ConvertUp(toBuy, paysPrice), toBuy)
    ensures var x := LimitCallAmounts(forSale, toBuy, matchPrice, paysPrice);
            && 0 < x.orderReceives <= x.callPays <= call.collateral
            && 0 < x.callReceives <= Min(forSale, toBuy)
            && (x.callReceives < call.debt ==> !WouldLowerRatio(call, x.callPays, x.callReceives))
            && (x.cullTaker ==> Convert(forSale - x.callReceives, matchPrice) == 0)
  {
    var x := LimitCallAmounts(forSale, toBuy, matchPrice, paysPrice);
    if toBuy > forSale {
      CalculateBounds(forSale, paysPrice, matchPrice);
      ConvertGalois(x.callReceives, paysPrice, x.callPays);
      Chain(x.callPays, x.callReceives, paysPrice.base, paysPrice.quote, call.debt, call.collateral);
      OwnShareKeepsRatio(call, x.callPays, x.callReceives);
    } else {
      RoundTripUp(toBuy, matchPrice);
      ConvertUpMonotone(toBuy, toBuy, matchPrice, paysPrice);
      if toBuy == call.debt {
        SwanPriceBounds(call, call.debt);
        ConvertUpMonotone(toBuy, toBuy, paysPrice, SwanPrice(call));
      }
    }
  }

  /** `match` of a limit order at position `i` with a margin called position that is covered at
      the price it pays, which is what the black swan check before it established. */
  method MatchLimitCall(coin: Smartcoin, i: nat, who: Account, feed: Feed)
    returns (ghost x: CallTrade, ghost toBuy: nat)
    requires coin.Valid() && coin.settlementPrice.None? && i < |coin.market.book[0]| && who in coin.calls
    requires GoodFeed(feed)
    requires AtMost(Collateralization(coin.calls[who]), MaintenanceCollateralization(feed))
    requires AtMost(SwanPrice(coin.calls[who]), MaxShortSqueezePrice(feed))
    requires AtMost(MarginCallOrderPrice(feed), coin.market.book[0][i].price)
    modifies coin`calls, coin`supply, coin.market`book, coin.market.ledger
    ensures coin.Valid()
    ensures forall a :: coin.Total(a) == old(coin.Total(a))
    ensures IsMaxDebt(old(coin.calls[who]), Inverse(MaxShortSqueezePrice(feed)), Inverse(feed.median), feed.mcr,
                      MaintenanceCollateralization(feed), toBuy)
    ensures x == LimitCallAmounts(old(coin.market.book[0][i].forSale), toBuy, MarginCallOrderPrice(feed),
                                  MaxShortSqueezePrice(feed))
    ensures 0 < x.orderReceives <= x.callPays <= old(coin.calls[who].collateral)
    ensures 0 < x.callReceives <= Min(old(coin.market.book[0][i].forSale), old(coin.calls[who].debt))
    ensures coin.calls == old(AfterCallFill(coin.calls, who, x.callPays, x.callReceives))
    ensures coin.supply == old(coin.supply) - x.callReceives
    ensures coin.market.ledger.journal
              == old(coin.market.ledger.journal
                     + coin.ClosingPostings(who, Freed(coin.calls, who, x.callPays, x.callReceives),
                                            x.callPays - x.orderReceives))
                 + old(coin.market.FillPostings(coin.market.book[0][i], 0, x.callReceives, x.orderReceives, true,
                                                false))
    ensures coin.market.book[1] == old(coin.market.book[1])
    ensures coin.market.book[0] == BookWithout(old(coin.market.book[0]), i, x.callReceives)
    ensures who in coin.calls ==> AtMost(Collateralization(old(coin.calls[who])), Collateralization(coin.calls[who]))
  {
    var trade;
    trade, toBuy := MarginTrade(coin.calls[who], coin.market.book[0][i], feed);
    x := trade;
    LimitCoversDebt(coin, i, who, trade);
  }

  /** Both sides of such a match are carried out. */
  method LimitCoversDebt(coin: Smartcoin, i: nat, who: Account, x: CallTrade)
    requires coin.Valid() && coin.settlementPrice.None? && i < |coin.market.book[0]| && who in coin.calls
    requires x.orderReceives <= x.callPays <= coin.calls[who].collateral
    requires 0 < x.callReceives <= Min(coin.market.book[0][i].forSale, coin.calls[who].debt)
    requires x.callReceives < coin.calls[who].debt ==> x.callPays < coin.calls[who].collateral
    modifies coin`calls, coin`supply, coin.market`book, coin.market.ledger
    ensures coin.Valid()
    ensures forall a :: coin.Total(a) == old(coin.Total(a))
    ensures coin.calls == old(AfterCallFill(coin.calls, who, x.callPays, x.callReceives))
    ensures coin.supply == old(coin.supply) - x.callReceives
    ensures coin.market.ledger.journal
              == old(coin.market.ledger.journal
                     + coin.ClosingPostings(who, Freed(coin.calls, who, x.callPays, x.callReceives),
                                            x.callPays - x.orderReceives))
                 + old(coin.market.FillPostings(coin.market.book[0][i], 0, x.callReceives, x.orderReceives, true,
                                                false))
    ensures coin.market.book[1] == old(coin.market.book[1])
    ensures coin.market.book[0] == BookWithout(old(coin.market.book[0]), i, x.callReceives)
  {
    coin.CoverDebt(who, x.callPays, x.callReceives, x.callPays - x.orderReceives);
    var gone := coin.FillLimit(i, x.callReceives, x.orderReceives, x.cullTaker, false);
  }

  /** The amounts of such a match. */
  method MarginTrade(call: Call, taker: Order, feed: Feed) returns (x: CallTrade, ghost limit: nat)
    requires call.collateral > 0 && call.debt > 0 && Sound(taker) && GoodFeed(feed)
    requires AtMost(Collateralization(call), MaintenanceCollateralization(feed))
    requires AtMost(SwanPrice(call), MaxShortSqueezePrice(feed))
    requires AtMost(MarginCallOrderPrice(feed), taker.price)
    ensures 0 < x.orderReceives <= x.callPays <= call.collateral
    ensures 0 < x.callReceives <= Min(taker.forSale, call.debt)
    ensures x.callReceives < call.debt ==> !WouldLowerRatio(call, x.callPays, x.callReceives)
    ensures x.cullTaker ==> Spent(taker, x.callReceives)
    ensures IsMaxDebt(call, Inverse(MaxShortSqueezePrice(feed)), Inverse(feed.median), feed.mcr,
                      MaintenanceCollateralization(feed), limit)
    ensures x == LimitCallAmounts(taker.forSale, limit, MarginCallOrderPrice(feed), MaxShortSqueezePrice(feed))
  {
    var matchPrice, paysPrice := MarginCallOrderPrice(feed), MaxShortSqueezePrice(feed);
    var toBuy := GetMaxDebtToCover(call, Inverse(paysPrice), Inverse(feed.median), feed.mcr,
                                   MaintenanceCollateralization(feed));
    limit := toBuy;
    MarginCallTermsAreGood(feed, toBuy);
    if call.targetRatio.Some? {
      var ratio := if call.targetRatio.value > feed.mcr then call.targetRatio.value else feed.mcr;
      CalledIsBelowTarget(call, feed, ratio);
      CoverLimitMakesCallable(call, MarginCallTerms(feed, toBuy), Target(Inverse(feed.median), ratio));
    }
    ConvertMonotone(taker.forSale, taker.forSale, taker.price, matchPrice);
    LimitCallIsFair(call, taker.forSale, toBuy, matchPrice, paysPrice);
    x := LimitCallAmounts(taker.forSale, toBuy, matchPrice, paysPrice);
    ConvertMonotone(taker.forSale - x.callReceives, taker.forSale - x.callReceives, taker.price, matchPrice);
  }
}
