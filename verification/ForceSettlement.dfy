/** The arithmetic of `match_impl`: a force-settlement order against a call order.
    Prices are debt per collateral, so `Convert` turns debt into collateral. */
module ForceSettlement {
  import opened Amounts
  import opened Rounding
  import opened Prices
  import opened LimitMatching
  import opened MaxDebtToCover

  /** The terms of one match. `ratio` is the margin call pays ratio, numerator over denominator,
      at most one: the settle order gets that part of what the call order pays. */
  datatype Terms = Terms(
    matchPrice: Price,
    fillPrice: Price,
    maxSettlement: nat,
    isMarginCall: bool,
    ratioNumerator: nat,
    ratioDenominator: nat)

  datatype Outcome =
    | SettleOrderCancelled
    | NothingDone
    | Settled(callPays: nat, callReceives: nat, settleReceives: nat, cullSettleOrder: bool)

  predicate GoodTerms(t: Terms) {
    && Positive(t.matchPrice)
    && Positive(t.fillPrice)
    && 0 < t.ratioNumerator <= t.ratioDenominator
    && AtMost(t.matchPrice, t.fillPrice)
  }

  /** The price at which the call order pays all its collateral for all its debt. */
  function SwanPrice(call: Call): Price {
    Price(call.debt, call.collateral)
  }

  /** `price / margin_call_pays_ratio`. */
  function FillPriceFor(matchPrice: Price, t: Terms): Price
    requires Positive(matchPrice) && GoodTerms(t)
  {
    Scale(matchPrice, t.ratioDenominator, t.ratioNumerator)
  }

  /** The lambda `calculate` of the source: from what the settle order gets, back to the debt
      it gives, and on to what the call order pays. */
  function Calculate(settlePays: nat, matchPrice: Price, fillPrice: Price): (r: (nat, nat, nat))
    requires Positive(matchPrice) && Positive(fillPrice)
  {
    var settleReceives := Convert(settlePays, fillPrice);
    var callReceives := ConvertUp(settleReceives, Inverse(fillPrice));
    (settleReceives, callReceives, Convert(callReceives, matchPrice))
  }

  /** Whether paying so much would leave the call order with a lower collateral ratio. */
  predicate WouldLowerRatio(call: Call, pays: nat, receives: nat) {
    pays >= call.collateral ||
    (receives < call.debt && Below(Price(call.collateral - pays, call.debt - receives), Collateralization(call)))
  }

  /** The whole case analysis of `match_impl`. */
  function ForceMatch(call: Call, balance: nat, t: Terms): Outcome
    requires call.collateral > 0 && call.debt > 0 && balance > 0 && GoodTerms(t)
  {
    var receives := Min(Min(balance, t.maxSettlement), call.debt);
    var pays := Convert(receives, t.matchPrice);
    if pays == 0 then
      if receives == call.debt then Settled(1, receives, 1, false)
      else if receives == balance then SettleOrderCancelled
      else if !t.isMarginCall then NothingDone
      else Settled(1, receives, 1, false)
    else if receives == call.debt then
      ClosingMatch(call, t)
    else if !t.isMarginCall then
      var stabilised := ConvertUp(pays, Inverse(t.matchPrice));
      Settled(pays, stabilised, pays, receives == balance && stabilised != balance)
    else if receives == t.maxSettlement then
      Settled(ConvertUp(receives, t.matchPrice), receives, ConvertUp(receives, t.fillPrice), false)
    else
      SmallSettleOrder(call, receives, balance, t)
  }

  /** The call order is closed: rounded up, in favour of the settle order, and for a margin call
      capped at all its collateral. */
  function ClosingMatch(call: Call, t: Terms): Outcome
    requires call.collateral > 0 && call.debt > 0 && GoodTerms(t)
  {
    var pays := ConvertUp(call.debt, t.matchPrice);
    if !t.isMarginCall then
      Settled(pays, call.debt, pays, false)
    else if pays > call.collateral then
      Settled(call.collateral, call.debt, ConvertUp(call.debt, FillPriceFor(SwanPrice(call), t)), false)
    else
      Settled(pays, call.debt, ConvertUp(call.debt, t.fillPrice), false)
  }

  /** A margin call against a smaller settle order, recalculated at the call order's own ratio
      when the match price would take too much from it. */
  function SmallSettleOrder(call: Call, settlePays: nat, balance: nat, t: Terms): Outcome
    requires call.collateral > 0 && call.debt > 0 && GoodTerms(t)
  {
    var (settleReceives, callReceives, callPays) := Calculate(settlePays, t.matchPrice, t.fillPrice);
    if settleReceives == 0 then
      SettleOrderCancelled
    else if !WouldLowerRatio(call, callPays, callReceives) then
      Settled(callPays, callReceives, settleReceives, settlePays == balance && callReceives != balance)
    else
      var (settleReceives', callReceives', callPays') :=
        Calculate(settlePays, SwanPrice(call), FillPriceFor(SwanPrice(call), t));
      if settleReceives' == 0 then SettleOrderCancelled
      else Settled(callPays', callReceives', settleReceives', settlePays == balance && callReceives' != balance)
  }

  /** What the callers guarantee: `get_max_debt_to_cover` sets the limit of a margin call, and a
      call order that is not margin called can be covered at the match price. */
  predicate Callable(call: Call, t: Terms) {
    if t.isMarginCall then
      && 0 < t.maxSettlement <= call.debt
      && (t.maxSettlement < call.debt ==>
            Positive(t.matchPrice) && !WouldLowerRatio(call, ConvertUp(t.maxSettlement, t.matchPrice), t.maxSettlement))
    else
      AtMost(SwanPrice(call), t.matchPrice)
  }

  /** The promise of a match: fees are never negative, nobody pays more than it has, and a call
      order left open keeps at least its collateral ratio. */
  predicate FairMatch(call: Call, balance: nat, t: Terms, o: Outcome) {
    o.Settled? ==>
      && 0 < o.settleReceives <= o.callPays <= call.collateral
      && 0 < o.callReceives <= Min(Min(balance, t.maxSettlement), call.debt)
      && (o.callReceives < call.debt ==> !WouldLowerRatio(call, o.callPays, o.callReceives))
  }

  lemma SwanPriceBounds(call: Call, debt: nat)
    requires call.collateral > 0 && call.debt > 0 && debt <= call.debt
    ensures Convert(debt, SwanPrice(call)) <= call.collateral
    ensures debt < call.debt ==> Convert(debt, SwanPrice(call)) < call.collateral
    ensures ConvertUp(call.debt, SwanPrice(call)) == call.collateral
  {
    var r := Convert(debt, SwanPrice(call));
    ConvertGalois(debt, SwanPrice(call), r);
    MulLe(debt, call.debt, call.collateral);
    Cancel(r, call.collateral, call.debt);
    if debt < call.debt {
      MulLt(debt, call.debt, call.collateral);
      CancelStrict(r, call.collateral, call.debt);
    }
    ConvertUpGalois(call.debt, SwanPrice(call), call.collateral);
    ConvertUpGalois(call.debt, SwanPrice(call), call.collateral - 1);
    MulLt(call.collateral - 1, call.collateral, call.debt);
  }

  /** Paying no more than the own share never lowers the ratio. */
  lemma OwnShareKeepsRatio(call: Call, pays: nat, receives: nat)
    requires call.collateral > 0 && receives < call.debt
    requires pays * call.debt <= receives * call.collateral
    ensures !WouldLowerRatio(call, pays, receives)
  {
    assert (call.collateral - pays) * call.debt == call.collateral * call.debt - pays * call.debt;
    assert call.collateral * (call.debt - receives) == call.collateral * call.debt - receives * call.collateral;
    MulLt(receives, call.debt, call.collateral);
    CancelStrict(pays, call.collateral, call.debt);
  }

  lemma FillPriceIsHigher(matchPrice: Price, t: Terms)
    requires Positive(matchPrice) && GoodTerms(t)
    ensures AtMost(matchPrice, FillPriceFor(matchPrice, t))
  {
    var f := FillPriceFor(matchPrice, t);
    MulNonNeg(matchPrice.base, matchPrice.quote);
    MulLe(t.ratioNumerator, t.ratioDenominator, matchPrice.base * matchPrice.quote);
    assert matchPrice.base * f.quote == t.ratioNumerator * (matchPrice.base * matchPrice.quote);
    assert f.base * matchPrice.quote == t.ratioDenominator * (matchPrice.base * matchPrice.quote);
  }

  /** The chain of roundings in `calculate` leaves a nonnegative fee and never uses more debt
      than offered; what is not used would buy nothing. */
  lemma CalculateBounds(settlePays: nat, matchPrice: Price, fillPrice: Price)
    requires Positive(matchPrice) && Positive(fillPrice) && AtMost(matchPrice, fillPrice)
    ensures var (settleReceives, callReceives, callPays) := Calculate(settlePays, matchPrice, fillPrice);
            && callReceives <= settlePays
            && settleReceives <= callPays
            && (settleReceives > 0 ==> callReceives > 0)
            && Convert(settlePays - callReceives, fillPrice) == 0
  {
    Stabilised(settlePays, fillPrice);
    var callReceives := Calculate(settlePays, matchPrice, fillPrice).1;
    ConvertMonotone(callReceives, callReceives, fillPrice, matchPrice);
  }

  lemma ClosingMatchIsFair(call: Call, balance: nat, t: Terms)
    requires call.collateral > 0 && call.debt > 0 && balance > 0 && GoodTerms(t) && Callable(call, t)
    requires call.debt <= balance && call.debt <= t.maxSettlement
    ensures FairMatch(call, balance, t, ClosingMatch(call, t))
  {
    RoundTripUp(call.debt, t.matchPrice);
    RoundTripUp(call.debt, t.fillPrice);
    ConvertUpMonotone(call.debt, call.debt, t.fillPrice, t.matchPrice);
    SwanPriceBounds(call, call.debt);
    if t.isMarginCall {
      var swan := SwanPrice(call);
      FillPriceIsHigher(swan, t);
      RoundTripUp(call.debt, FillPriceFor(swan, t));
      ConvertUpMonotone(call.debt, call.debt, FillPriceFor(swan, t), swan);
    } else {
      ConvertUpMonotone(call.debt, call.debt, t.matchPrice, SwanPrice(call));
    }
  }

  lemma SmallSettleOrderIsFair(call: Call, balance: nat, t: Terms)
    requires call.collateral > 0 && call.debt > 0 && balance > 0 && GoodTerms(t)
    requires balance < call.debt && balance <= t.maxSettlement
    ensures FairMatch(call, balance, t, SmallSettleOrder(call, balance, balance, t))
  {
    CalculateBounds(balance, t.matchPrice, t.fillPrice);
    var swan := SwanPrice(call);
    var fill := FillPriceFor(swan, t);
    FillPriceIsHigher(swan, t);
    CalculateBounds(balance, swan, fill);
    var (_, callReceives, callPays) := Calculate(balance, swan, fill);
    ConvertGalois(callReceives, swan, callPays);
    SwanPriceBounds(call, callReceives);
    OwnShareKeepsRatio(call, callPays, callReceives);
  }

  lemma StabilisedMatchIsFair(call: Call, balance: nat, t: Terms, receives: nat)
    requires call.collateral > 0 && call.debt > 0 && GoodTerms(t) && Callable(call, t) && !t.isMarginCall
    requires receives < call.debt && receives <= balance && receives <= t.maxSettlement
    requires Convert(receives, t.matchPrice) > 0
    ensures var pays := Convert(receives, t.matchPrice);
            var r := ConvertUp(pays, Inverse(t.matchPrice));
            FairMatch(call, balance, t, Settled(pays, r, pays, receives == balance && r != balance))
  {
    var pays := Convert(receives, t.matchPrice);
    var r := ConvertUp(pays, Inverse(t.matchPrice));
    Stabilised(receives, t.matchPrice);
    // pays/r <= quote/base of the match price <= collateral/debt
    Chain(pays, r, t.matchPrice.base, t.matchPrice.quote, call.debt, call.collateral);
    MulLt(r, call.debt, call.collateral);
    CancelStrict(pays, call.collateral, call.debt);
    OwnShareKeepsRatio(call, pays, r);
  }

  /** A match that the callers' guarantees allow is fair, in every one of its branches. */
  lemma ForceMatchIsFair(call: Call, balance: nat, t: Terms)
    requires call.collateral > 0 && call.debt > 0 && balance > 0 && GoodTerms(t) && Callable(call, t)
    ensures FairMatch(call, balance, t, ForceMatch(call, balance, t))
  {
    var receives := Min(Min(balance, t.maxSettlement), call.debt);
    var pays := Convert(receives, t.matchPrice);
    if pays == 0 {
      if receives == t.maxSettlement && t.isMarginCall && receives < call.debt {
        DustCostsOne(receives, t.matchPrice);
      }
    } else if receives == call.debt {
      ClosingMatchIsFair(call, balance, t);
    } else if !t.isMarginCall {
      StabilisedMatchIsFair(call, balance, t, receives);
    } else if receives == t.maxSettlement {
      RoundTripUp(receives, t.fillPrice);
      ConvertUpMonotone(receives, receives, t.fillPrice, t.matchPrice);
    } else {
      SmallSettleOrderIsFair(call, balance, t);
    }
  }

  // ----- the prices of a match -----

  /** An amount of debt in collateral, rounded up or down. */
  predicate Worth(collateral: nat, debt: nat, p: Price, up: bool) {
    if up then collateral * p.base - p.base < debt * p.quote <= collateral * p.base
    else collateral * p.base <= debt * p.quote < collateral * p.base + p.base
  }

  /** What both get is what the debt is worth at two prices, both rounded the same way. */
  predicate SettledAt(o: Outcome, matchPrice: Price, fillPrice: Price, up: bool) {
    && o.Settled?
    && Worth(o.callPays, o.callReceives, matchPrice, up)
    && Worth(o.settleReceives, o.callReceives, fillPrice, up)
  }

  /** The price for the settle order: what a call order that is not margin called pays it gets. */
  function FillPrice(t: Terms): Price {
    if t.isMarginCall then t.fillPrice else t.matchPrice
  }

  /** What is left of an amount of debt buys nothing. */
  predicate LeavesDust(amount: nat, used: nat, p: Price) {
    used <= amount && (amount - used) * p.quote < p.base
  }

  lemma RoundedIsWorth(debt: nat, p: Price)
    requires Positive(p)
    ensures Worth(ConvertUp(debt, p), debt, p, true) && Worth(Convert(debt, p), debt, p, false)
    ensures LeavesDust(debt, debt, p)
    ensures debt > 0 && Convert(debt, p) == 0 ==> Worth(1, debt, p, true)
  {
    ConvertGalois(debt, p, 1);
    if debt > 0 {
      MulPos(debt, p.quote);
    }
  }

  lemma StabilisedIsWorth(amount: nat, p: Price)
    requires Positive(p)
    ensures var r := Convert(amount, p);
            var least := ConvertUp(r, Inverse(p));
            least <= amount && Worth(r, least, p, false) && LeavesDust(amount, least, p)
  {
    Stabilised(amount, p);
    var least := ConvertUp(Convert(amount, p), Inverse(p));
    RoundedIsWorth(least, p);
    ConvertGalois(amount - least, p, 1);
  }

  lemma TinyMatchIsSettledAt(receives: nat, t: Terms)
    requires GoodTerms(t) && receives > 0 && Convert(receives, t.matchPrice) == 0
    ensures SettledAt(Settled(1, receives, 1, false), t.matchPrice, FillPrice(t), true)
    ensures LeavesDust(receives, receives, FillPrice(t))
  {
    ConvertMonotone(receives, receives, t.fillPrice, t.matchPrice);
    RoundedIsWorth(receives, t.matchPrice);
    RoundedIsWorth(receives, t.fillPrice);
  }

  lemma ClosingIsSettledAt(call: Call, t: Terms)
    requires call.collateral > 0 && call.debt > 0 && GoodTerms(t)
    ensures var o := ClosingMatch(call, t);
            || (SettledAt(o, t.matchPrice, FillPrice(t), true) && LeavesDust(call.debt, call.debt, FillPrice(t)))
            || (t.isMarginCall && Below(t.matchPrice, SwanPrice(call))
                && SettledAt(o, SwanPrice(call), FillPriceFor(SwanPrice(call), t), true)
                && LeavesDust(call.debt, call.debt, FillPriceFor(SwanPrice(call), t)))
  {
    var swan := SwanPrice(call);
    RoundedIsWorth(call.debt, t.matchPrice);
    RoundedIsWorth(call.debt, t.fillPrice);
    RoundedIsWorth(call.debt, swan);
    RoundedIsWorth(call.debt, FillPriceFor(swan, t));
    SwanPriceBounds(call, call.debt);
    ConvertUpGalois(call.debt, t.matchPrice, call.collateral);
  }

  /** More than the own share is only paid at a price that asks for it. */
  lemma LowersOnlyBelowSwan(call: Call, pays: nat, receives: nat, p: Price)
    requires call.collateral > 0 && call.debt > 0 && Positive(p) && receives < call.debt
    requires pays == Convert(receives, p) && WouldLowerRatio(call, pays, receives)
    ensures Below(p, SwanPrice(call))
  {
    if AtMost(SwanPrice(call), p) {
      ConvertGalois(receives, p, pays);
      Chain(pays, receives, p.base, p.quote, call.debt, call.collateral);
      OwnShareKeepsRatio(call, pays, receives);
    }
  }

  lemma SmallOrderIsSettledAt(call: Call, balance: nat, t: Terms)
    requires call.collateral > 0 && call.debt > 0 && balance > 0 && GoodTerms(t) && t.isMarginCall
    requires balance < call.debt
    ensures var o := SmallSettleOrder(call, balance, balance, t);
            o.Settled? ==>
              || (SettledAt(o, t.matchPrice, t.fillPrice, false) && LeavesDust(balance, o.callReceives, t.fillPrice))
              || (Below(t.matchPrice, SwanPrice(call))
                  && SettledAt(o, SwanPrice(call), FillPriceFor(SwanPrice(call), t), false)
                  && LeavesDust(balance, o.callReceives, FillPriceFor(SwanPrice(call), t)))
  {
    var swan := SwanPrice(call);
    var fill := FillPriceFor(swan, t);
    StabilisedIsWorth(balance, t.fillPrice);
    StabilisedIsWorth(balance, fill);
    var (_, callReceives, callPays) := Calculate(balance, t.matchPrice, t.fillPrice);
    RoundedIsWorth(callReceives, t.matchPrice);
    RoundedIsWorth(Calculate(balance, swan, fill).1, swan);
    if WouldLowerRatio(call, callPays, callReceives) {
      LowersOnlyBelowSwan(call, callPays, callReceives, t.matchPrice);
    }
  }

  /** A match is settled at its terms. Only a margin call whose price asks for more than the call
      order's own collateral per debt may be settled at that instead, with the settle order's part of
      it. A call order pays rounded up when it is closed, or covers all that a margin call may cover,
      and rounded down when a settle order is used up. All the debt is settled that can be, except for
      what buys nothing. */
  lemma SettledAtTheTerms(call: Call, balance: nat, t: Terms)
    requires call.collateral > 0 && call.debt > 0 && balance > 0 && GoodTerms(t) && Callable(call, t)
    ensures var o, swan := ForceMatch(call, balance, t), SwanPrice(call);
            var all := Min(Min(balance, t.maxSettlement), call.debt);
            o.Settled? ==>
              var up := o.callReceives == call.debt || (t.isMarginCall && o.callReceives == t.maxSettlement);
              || (SettledAt(o, t.matchPrice, FillPrice(t), up) && LeavesDust(all, o.callReceives, FillPrice(t)))
              || (t.isMarginCall && Below(t.matchPrice, swan)
                  && SettledAt(o, swan, FillPriceFor(swan, t), up)
                  && LeavesDust(all, o.callReceives, FillPriceFor(swan, t)))
  {
    var receives := Min(Min(balance, t.maxSettlement), call.debt);
    if Convert(receives, t.matchPrice) == 0 {
      if receives > 0 {
        TinyMatchIsSettledAt(receives, t);
      }
    } else if receives == call.debt {
      ClosingIsSettledAt(call, t);
    } else if !t.isMarginCall {
      StabilisedIsWorth(receives, t.matchPrice);
    } else if receives == t.maxSettlement {
      RoundedIsWorth(receives, t.matchPrice);
      RoundedIsWorth(receives, t.fillPrice);
    } else {
      SmallOrderIsSettledAt(call, balance, t);
    }
  }

  /** Nothing is settled only when what could be settled buys nothing; then a settle order that is no
      more than that is cancelled, and otherwise nothing happens, which is never so in a margin call. */
  lemma SettledUnlessDust(call: Call, balance: nat, t: Terms)
    requires call.collateral > 0 && call.debt > 0 && balance > 0 && GoodTerms(t)
    ensures var o, swan := ForceMatch(call, balance, t), SwanPrice(call);
            var all := Min(Min(balance, t.maxSettlement), call.debt);
            && (all == call.debt || (t.isMarginCall && all < balance) ==> o.Settled?)
            && (!t.isMarginCall && all < call.debt ==> (o.Settled? <==> BuysSomething(all, t.matchPrice)))
            && (o.NothingDone? ==> all < balance)
            && (o.SettleOrderCancelled? ==>
                  && all == balance
                  && (!BuysSomething(balance, t.matchPrice) || !BuysSomething(balance, t.fillPrice)
                      || (Below(t.matchPrice, swan) && !BuysSomething(balance, FillPriceFor(swan, t)))))
  {
    var receives := Min(Min(balance, t.maxSettlement), call.debt);
    var swan := SwanPrice(call);
    ConvertGalois(receives, t.matchPrice, 1);
    ConvertGalois(receives, t.fillPrice, 1);
    ConvertGalois(receives, FillPriceFor(swan, t), 1);
    var (_, callReceives, callPays) := Calculate(receives, t.matchPrice, t.fillPrice);
    if receives < call.debt && WouldLowerRatio(call, callPays, callReceives) {
      CalculateUses(receives, t.matchPrice, t.fillPrice);
      LowersOnlyBelowSwan(call, callPays, callReceives, t.matchPrice);
    }
  }

  /** An amount of debt that is worth a unit of collateral at least. */
  predicate BuysSomething(amount: nat, p: Price) {
    p.base <= amount * p.quote
  }

  lemma CalculateUses(settlePays: nat, matchPrice: Price, fillPrice: Price)
    requires Positive(matchPrice) && Positive(fillPrice)
    ensures Calculate(settlePays, matchPrice, fillPrice).1 <= settlePays
  {
    Stabilised(settlePays, fillPrice);
  }

  lemma DustCostsOne(amount: nat, p: Price)
    requires Positive(p) && amount > 0 && Convert(amount, p) == 0
    ensures ConvertUp(amount, p) == 1
  {
    ConvertGalois(amount, p, 1);
    ConvertUpGalois(amount, p, 1);
    RoundTripUp(amount, p);
  }

  /** The settle order is cancelled, or what is left of it culled, only when that would buy
      nothing at the price it was filled at. */
  lemma OnlyDustIsCulled(call: Call, balance: nat, t: Terms)
    requires call.collateral > 0 && call.debt > 0 && balance > 0 && GoodTerms(t) && Callable(call, t)
    ensures var o := ForceMatch(call, balance, t);
            && (o.Settled? && o.cullSettleOrder ==>
                  && o.callReceives < balance
                  && (exists p :: Positive(p) && p in {t.matchPrice, t.fillPrice, FillPriceFor(SwanPrice(call), t)}
                        && Convert(balance - o.callReceives, p) == 0))
            && (o.SettleOrderCancelled? ==>
                  exists p :: Positive(p) && p in {t.matchPrice, t.fillPrice, FillPriceFor(SwanPrice(call), t)}
                    && Convert(balance, p) == 0)
  {
    var receives := Min(Min(balance, t.maxSettlement), call.debt);
    Stabilised(receives, t.matchPrice);
    CalculateBounds(receives, t.matchPrice, t.fillPrice);
    FillPriceIsHigher(SwanPrice(call), t);
    CalculateBounds(receives, SwanPrice(call), FillPriceFor(SwanPrice(call), t));
  }

  /** The guarantee of `get_max_debt_to_cover` is the one a margin call needs. */
  lemma CoverLimitMakesCallable(call: Call, t: Terms, target: Price)
    requires call.collateral > 0 && call.debt > 0 && GoodTerms(t) && t.isMarginCall && Positive(target)
    requires AtMost(Collateralization(call), target)
    requires t.maxSettlement <= call.debt
    requires Covered(call, Inverse(t.matchPrice), target, t.maxSettlement)
    ensures Callable(call, t)
  {
    if t.maxSettlement < call.debt {
      CoveredRaisesRatio(call, Inverse(t.matchPrice), target, t.maxSettlement);
      assert Inverse(Inverse(t.matchPrice)) == t.matchPrice;
    }
  }
}
