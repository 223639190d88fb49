/** The arithmetic of the global settlement fund and of collateral bids. The settlement price
    has the supply at the time of settlement as base and the collateral gathered as quote. */
module GlobalSettlement {
  import opened Amounts
  import opened Rounding
  import opened Prices

  datatype Bid = Bid(bidder: nat, additional: nat, debt: nat)

  /** The bids of a coin: one per account, best first, that is, most collateral per debt first. */
  predicate GoodBids(bids: seq<Bid>) {
    && (forall i :: 0 <= i < |bids| ==> bids[i].debt > 0 && bids[i].additional > 0)
    && (forall i, j :: 0 <= i < j < |bids| ==> bids[i].bidder != bids[j].bidder)
    && (forall i, j {:trigger AtMost(BidPrice(bids[j]), BidPrice(bids[i]))} ::
          0 <= i < j < |bids| ==> AtMost(BidPrice(bids[j]), BidPrice(bids[i])))
  }

  /** inv_swan_price */
  function BidPrice(bid: Bid): Price {
    Price(bid.additional, bid.debt)
  }

  /** The fund covers the whole supply at the settlement price, and is used up with it. */
  predicate Funded(supply: nat, fund: nat, p: Price) {
    && p.base > 0
    && supply * p.quote <= fund * p.base
    && (supply == 0 ==> fund == 0)
  }

  /** What a settler gives and gets, `pay_settle_from_gs_fund`: the last one gets everything. */
  function Payout(supply: nat, fund: nat, p: Price, amount: nat): (r: (nat, nat))
    requires p.base > 0
  {
    var gets := if amount == supply then fund else Convert(amount, p);
    var pays := if amount != supply && gets != 0 && p.quote > 0 then ConvertUp(gets, Inverse(p)) else amount;
    (pays, gets)
  }

  /** The last settler gives and gets all. Every other gets what its amount is worth at the
      settlement price, rounded down, and gives the least debt that is worth as much. */
  lemma PayoutIsExact(supply: nat, fund: nat, p: Price, amount: nat)
    requires p.base > 0
    ensures var (pays, gets) := Payout(supply, fund, p, amount);
            && (amount == supply ==> pays == amount && gets == fund)
            && (amount != supply ==>
                  && gets * p.base <= amount * p.quote < gets * p.base + p.base
                  && (gets == 0 || p.quote == 0 ==> pays == amount)
                  && (gets > 0 && p.quote > 0 ==> pays * p.quote - p.quote < gets * p.base <= pays * p.quote))
  {
  }

  /** The fund always suffices and never loses its cover. */
  lemma PayoutKeepsFunded(supply: nat, fund: nat, p: Price, amount: nat)
    requires Funded(supply, fund, p) && 0 < amount <= supply
    ensures var (pays, gets) := Payout(supply, fund, p, amount);
            && gets <= fund
            && 0 < pays <= amount
            && Funded(supply - pays, fund - gets, p)
            && (pays == supply <==> amount == supply)
            && (amount < supply && p.quote > 0 ==> gets < fund)
  {
    if amount < supply {
      var (pays, gets) := Payout(supply, fund, p, amount);
      FundSuffices(supply, fund, p, amount);
      if gets != 0 {
        if p.quote == 0 {
          ConvertGalois(amount, p, gets);
          MulPos(gets, p.base);
        }
        Stabilised(amount, p);
      } else {
        MulNonNeg(pays, p.quote);
      }
      CoverKept(supply, fund, p, pays, gets);
    } else {
      assert (supply - amount) * p.quote == 0;
    }
  }

  lemma FundSuffices(supply: nat, fund: nat, p: Price, amount: nat)
    requires Funded(supply, fund, p) && amount < supply
    ensures Convert(amount, p) <= fund
    ensures p.quote > 0 ==> Convert(amount, p) < fund
  {
    var gets := Convert(amount, p);
    ConvertGalois(amount, p, gets);
    MulLe(amount, supply, p.quote);
    Cancel(gets, fund, p.base);
    if p.quote > 0 {
      MulLt(amount, supply, p.quote);
      CancelStrict(gets, fund, p.base);
    }
  }

  lemma CoverKept(supply: nat, fund: nat, p: Price, pays: nat, gets: nat)
    requires supply * p.quote <= fund * p.base && gets * p.base <= pays * p.quote
    ensures (supply - pays) * p.quote <= (fund - gets) * p.base
  {
    assert (supply - pays) * p.quote == supply * p.quote - pays * p.quote;
    assert (fund - gets) * p.base == fund * p.base - gets * p.base;
  }

  /** The debt a bid can take over, and the collateral from the fund that goes with it. */
  function DebtIn(bid: Bid, supply: nat): nat {
    Min(bid.debt, supply)
  }

  function ShareOf(bid: Bid, supply: nat, p: Price): nat
    requires p.base > 0
  {
    Convert(DebtIn(bid, supply), p)
  }

  /** The test of the first pass: `~call_price < settlement_price` of the feed, exactly. */
  predicate Acceptable(debt: nat, collateral: nat, feed: Price, ratio: nat) {
    Below(Price(debt * ratio, collateral * 1000), feed)
  }

  predicate BidAcceptable(bid: Bid, supply: nat, p: Price, feed: Price, ratio: nat)
    requires p.base > 0
  {
    Acceptable(DebtIn(bid, supply), ShareOf(bid, supply, p) + bid.additional, feed, ratio)
  }

  /** What that test asks: the collateral is worth more than the ratio times the debt. */
  lemma AcceptableMeans(debt: nat, collateral: nat, feed: Price, ratio: nat)
    ensures Acceptable(debt, collateral, feed, ratio)
            <==> ratio * (debt * feed.quote) < 1000 * (collateral * feed.base)
  {
    assert feed.base * (collateral * 1000) == 1000 * (collateral * feed.base);
    assert (debt * ratio) * feed.quote == ratio * (debt * feed.quote);
  }

  /** The part of the fund that goes with a bid: the bid's debt at the settlement price, rounded down. */
  lemma ShareIsExact(bid: Bid, supply: nat, p: Price)
    requires p.base > 0
    ensures var debt := if bid.debt <= supply then bid.debt else supply;
            var share := ShareOf(bid, supply, p);
            DebtIn(bid, supply) == debt && share * p.base <= debt * p.quote < share * p.base + p.base
  {
  }

  /** A position with at least the collateral per debt of an acceptable one is acceptable. */
  lemma BetterIsAcceptable(debt: nat, collateral: nat, debt': nat, collateral': nat, feed: Price, ratio: nat)
    requires Positive(feed) && ratio > 0 && debt > 0 && collateral > 0 && debt' > 0 && collateral' > 0
    requires Acceptable(debt, collateral, feed, ratio)
    requires collateral * debt' <= collateral' * debt
    ensures Acceptable(debt', collateral', feed, ratio)
  {
    var p, p' := Price(debt * ratio, collateral * 1000), Price(debt' * ratio, collateral' * 1000);
    MulPos(debt, ratio);
    MulPos(debt', ratio);
    assert AtMost(p', p) by {
      assert p'.base * p.quote == (collateral * debt') * (ratio * 1000);
      assert p.base * p'.quote == (collateral' * debt) * (ratio * 1000);
      MulLe(collateral * debt', collateral' * debt, ratio * 1000);
    }
    if AtMost(feed, p') {
      AtMostTransitive(feed, p', p);
    }
  }

  /** Handing out the floor of its share to a bid leaves enough for the debt that remains. */
  lemma ShareLeavesEnough(toCover: nat, remaining: nat, p: Price, debt: nat)
    requires p.base > 0 && debt < toCover
    requires toCover * p.quote <= remaining * p.base
    ensures Convert(debt, p) <= remaining
    ensures (toCover - debt) * p.quote <= (remaining - Convert(debt, p)) * p.base
  {
    var share := Convert(debt, p);
    ConvertGalois(debt, p, share);
    MulLe(debt, toCover, p.quote);
    Cancel(share, remaining, p.base);
    assert (toCover - debt) * p.quote == toCover * p.quote - debt * p.quote;
    assert (remaining - share) * p.base == remaining * p.base - share * p.base;
  }

  /** The last bid takes over less debt than it offered to, and all of the remaining fund: its
      position is at least as collateralised as the one that was accepted. */
  lemma LastBidIsNoWorse(bid: Bid, supply: nat, p: Price, toCover: nat, remaining: nat)
    requires p.base > 0 && toCover * p.quote <= remaining * p.base
    requires toCover <= DebtIn(bid, supply)
    ensures (ShareOf(bid, supply, p) + bid.additional) * toCover <= (remaining + bid.additional) * DebtIn(bid, supply)
  {
    var debt, share := DebtIn(bid, supply), ShareOf(bid, supply, p);
    ConvertGalois(debt, p, share);
    // share/debt <= quote/base <= remaining/toCover
    if p.quote > 0 {
      Chain(share, debt, p.base, p.quote, toCover, remaining);
    } else {
      Cancel(share, 0, p.base);
    }
    MulLe(toCover, debt, bid.additional);
    assert (share + bid.additional) * toCover == share * toCover + toCover * bid.additional;
    assert (remaining + bid.additional) * debt == remaining * debt + debt * bid.additional;
  }

  /** The collateral that an individually settled position brings into the settlement pool: its
      own ratio, less the margin call fee, rounded up; never more than it has. */
  function FundReceives(collateral: nat, debt: nat, ratioNumerator: nat, ratioDenominator: nat): nat
    requires collateral > 0 && debt > 0 && 0 < ratioNumerator <= ratioDenominator
  {
    ConvertUp(debt, Scale(Price(debt, collateral), ratioDenominator, ratioNumerator))
  }

  /** So it is the part of all its collateral that the margin call order price is of the price a
      margin call pays, rounded up. */
  lemma FundReceivesIsExact(collateral: nat, debt: nat, ratioNumerator: nat, ratioDenominator: nat)
    requires collateral > 0 && debt > 0 && 0 < ratioNumerator <= ratioDenominator
    ensures var r := FundReceives(collateral, debt, ratioNumerator, ratioDenominator);
            (r - 1) * ratioDenominator < collateral * ratioNumerator <= r * ratioDenominator
  {
    var r := FundReceives(collateral, debt, ratioNumerator, ratioDenominator);
    var p := Scale(Price(debt, collateral), ratioDenominator, ratioNumerator);
    ConvertUpGalois(debt, p, r);
    ConvertUpGalois(debt, p, r - 1);
    assert debt * p.quote == (collateral * ratioNumerator) * debt;
    assert r * p.base == (r * ratioDenominator) * debt;
    assert (r - 1) * p.base == ((r - 1) * ratioDenominator) * debt;
    Cancel(collateral * ratioNumerator, r * ratioDenominator, debt);
    CancelStrict((r - 1) * ratioDenominator, collateral * ratioNumerator, debt);
  }

  lemma FundReceivesAtMostAll(collateral: nat, debt: nat, ratioNumerator: nat, ratioDenominator: nat)
    requires collateral > 0 && debt > 0 && 0 < ratioNumerator <= ratioDenominator
    ensures 0 < FundReceives(collateral, debt, ratioNumerator, ratioDenominator) <= collateral
  {
    var p := Scale(Price(debt, collateral), ratioDenominator, ratioNumerator);
    RoundTripUp(debt, p);
    assert debt * p.quote == (debt * collateral) * ratioNumerator;
    assert collateral * p.base == (debt * collateral) * ratioDenominator;
    MulNonNeg(debt, collateral);
    MulLe(ratioNumerator, ratioDenominator, debt * collateral);
    ConvertUpGalois(debt, p, collateral);
  }
}
