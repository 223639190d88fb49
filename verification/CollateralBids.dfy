/** Bids of collateral for the debt of a globally settled smartcoin, and its revival. */
module CollateralBids {
  import opened Options
  import opened Rounding
  import opened Prices
  import opened Sums
  import opened Ledgers
  import opened LimitMatching
  import opened LimitMarkets
  import opened MaxDebtToCover
  import opened SettledDebt
  import opened GlobalSettlement
  import opened Smartcoins
  import opened GlobalSettling

  // ----- bidding -----

  predicate HasBid(bids: seq<Bid>, who: Account) {
    exists i :: 0 <= i < |bids| && bids[i].bidder == who
  }

  /** Where a new bid goes: after the bids that are as good, which are older. */
  function BidPlace(bids: seq<Bid>, b: Bid): (i: nat)
    ensures i <= |bids|
    ensures forall j :: 0 <= j < i ==> AtMost(BidPrice(b), BidPrice(bids[j]))
    ensures i < |bids| ==> AtMost(BidPrice(bids[i]), BidPrice(b))
  {
    if bids == [] || Below(BidPrice(bids[0]), BidPrice(b)) then 0 else 1 + BidPlace(bids[1..], b)
  }

  lemma {:induction false} InsertKeepsGoodBids(bids: seq<Bid>, b: Bid)
    requires GoodBids(bids) && b.debt > 0 && b.additional > 0 && !HasBid(bids, b.bidder)
    ensures var i := BidPlace(bids, b); GoodBids(bids[..i] + [b] + bids[i..])
  {
    var i := BidPlace(bids, b);
    var r := bids[..i] + [b] + bids[i..];
    assert forall j :: 0 <= j < |r| ==> r[j] == if j < i then bids[j] else if j == i then b else bids[j - 1];
    forall j, k | 0 <= j < k < |r|
      ensures AtMost(BidPrice(r[k]), BidPrice(r[j])) && r[j].bidder != r[k].bidder
    {
      if j == i {
        BehindIsNoBetter(bids, i, k - 1, b);
      }
    }
  }

  /** A bid is behind all that offer as much collateral per debt, and in front of all that offer less. */
  ghost predicate InPlace(bids: seq<Bid>, b: Bid) {
    exists i :: 0 <= i < |bids| && bids[i] == b && IsPlace(bids, i, b)
  }

  ghost predicate IsPlace(bids: seq<Bid>, i: nat, b: Bid) {
    && (forall j {:trigger bids[j]} :: 0 <= j < i && j < |bids| ==>
          b.additional * bids[j].debt <= bids[j].additional * b.debt)
    && (forall j {:trigger bids[j]} :: i < j < |bids| ==>
          bids[j].additional * b.debt < b.additional * bids[j].debt)
  }

  lemma {:induction false} BidPlaceIsLast(bids: seq<Bid>, b: Bid)
    requires GoodBids(bids) && b.debt > 0 && b.additional > 0
    ensures var i := BidPlace(bids, b);
            && (forall j :: 0 <= j < i ==> b.additional * bids[j].debt <= bids[j].additional * b.debt)
            && (forall j :: i <= j < |bids| ==> bids[j].additional * b.debt < b.additional * bids[j].debt)
    decreases |bids|
  {
    if bids == [] {
    } else if Below(BidPrice(bids[0]), BidPrice(b)) {
      forall j | 0 <= j < |bids|
        ensures bids[j].additional * b.debt < b.additional * bids[j].debt
      {
        if j > 0 && AtMost(BidPrice(b), BidPrice(bids[j])) {
          assert AtMost(BidPrice(bids[j]), BidPrice(bids[0]));
          AtMostTransitive(BidPrice(b), BidPrice(bids[j]), BidPrice(bids[0]));
        }
      }
    } else {
      TailIsGood(bids);
      BidPlaceIsLast(bids[1..], b);
      forall j | 0 < j < |bids|
        ensures bids[j] == bids[1..][j - 1]
      {
      }
    }
  }

  lemma {:induction false} TailIsGood(bids: seq<Bid>)
    requires GoodBids(bids) && bids != []
    ensures GoodBids(bids[1..])
  {
    var rest := bids[1..];
    forall i, j | 0 <= i < j < |rest|
      ensures rest[i].bidder != rest[j].bidder && AtMost(BidPrice(rest[j]), BidPrice(rest[i]))
    {
      assert rest[i] == bids[i + 1] && rest[j] == bids[j + 1];
      assert AtMost(BidPrice(bids[j + 1]), BidPrice(bids[i + 1]));
    }
  }

  lemma {:induction false} InsertedInPlace(bids: seq<Bid>, b: Bid)
    requires GoodBids(bids) && b.debt > 0 && b.additional > 0
    ensures var i := BidPlace(bids, b); InPlace(bids[..i] + [b] + bids[i..], b)
  {
    var i := BidPlace(bids, b);
    var r := bids[..i] + [b] + bids[i..];
    BidPlaceIsLast(bids, b);
    assert r[i] == b;
    forall j | 0 <= j < |r| && j != i
      ensures r[j] == bids[if j < i then j else j - 1]
    {
    }
    assert IsPlace(r, i, b);
  }

  lemma BehindIsNoBetter(bids: seq<Bid>, i: nat, k: nat, b: Bid)
    requires GoodBids(bids) && b.debt > 0 && b.additional > 0
    requires i <= k < |bids| && AtMost(BidPrice(bids[i]), BidPrice(b))
    ensures AtMost(BidPrice(bids[k]), BidPrice(b))
  {
    if i < k {
      AtMostTransitive(BidPrice(bids[k]), BidPrice(bids[i]), BidPrice(b));
    }
  }

  lemma DropKeepsGoodBids(bids: seq<Bid>, i: nat)
    requires GoodBids(bids) && i < |bids|
    ensures GoodBids(bids[..i] + bids[i + 1..]) && !HasBid(bids[..i] + bids[i + 1..], bids[i].bidder)
  {
    var r := bids[..i] + bids[i + 1..];
    assert forall j :: 0 <= j < |r| ==> r[j] == if j < i then bids[j] else bids[j + 1];
  }

  lemma InsertedBid(bids: seq<Bid>, i: nat, b: Bid)
    requires i <= |bids|
    ensures var r := bids[..i] + [b] + bids[i..];
            b in r && HasBid(r, b.bidder) && forall other :: other != b ==> (other in r <==> other in bids)
  {
    var r := bids[..i] + [b] + bids[i..];
    assert r[i] == b && bids == bids[..i] + bids[i..];
  }

  lemma DroppedBid(bids: seq<Bid>, i: nat)
    requires i < |bids|
    ensures forall other :: other != bids[i] ==> (other in bids[..i] + bids[i + 1..] <==> other in bids)
  {
    assert bids == bids[..i] + [bids[i]] + bids[i + 1..];
  }

  /** `cancel_bid` */
  method CancelBid(coin: Smartcoin, i: nat)
    requires Consistent(coin) && i < |coin.bids|
    modifies coin`bids, coin.market.ledger`funds, coin.market.ledger`journal
    ensures Consistent(coin)
    ensures coin.bids == old(coin.bids[..i] + coin.bids[i + 1..]) && !HasBid(coin.bids, old(coin.bids[i].bidder))
    ensures coin.market.ledger.journal
              == old(coin.market.ledger.journal
                     + [Posting(Balance(coin.bids[i].bidder, coin.CollateralAsset()), coin.bids[i].additional)])
    ensures forall other: Bid ::
      other.bidder != old(coin.bids[i].bidder) ==> (other in coin.bids <==> other in old(coin.bids))
    ensures var slot := Balance(old(coin.bids[i].bidder), coin.CollateralAsset());
            AmountIn(coin.market.ledger.funds, slot)
                == old(AmountIn(coin.market.ledger.funds, slot)) + old(coin.bids[i].additional)
    ensures forall a :: coin.Total(a) == old(coin.Total(a))
  {
    var b := coin.bids[i];
    RemoveBid(coin, i);
    var ok := coin.market.Post(Balance(b.bidder, coin.CollateralAsset()), b.additional);
  }

  method RemoveBid(coin: Smartcoin, i: nat)
    requires Consistent(coin) && i < |coin.bids|
    modifies coin`bids
    ensures Consistent(coin)
    ensures coin.bids == old(coin.bids[..i] + coin.bids[i + 1..]) && !HasBid(coin.bids, old(coin.bids[i].bidder))
    ensures i == 0 ==> coin.bids == old(coin.bids)[1..]
    ensures forall other: Bid ::
      other.bidder != old(coin.bids[i].bidder) ==> (other in coin.bids <==> other in old(coin.bids))
    ensures forall a ::
      coin.Total(a) == old(coin.Total(a)) - if a == coin.CollateralAsset() then old(coin.bids[i].additional) else 0
  {
    var b := coin.bids[i];
    DropKeepsGoodBids(coin.bids, i);
    DroppedBid(coin.bids, i);
    SumSeqReplace(coin.bids, i, b, (b: Bid) => b.additional);
    coin.bids := coin.bids[..i] + coin.bids[i + 1..];
  }

  method AddBid(coin: Smartcoin, b: Bid) returns (ok: bool)
    requires Consistent(coin) && b.debt > 0 && b.additional > 0 && !HasBid(coin.bids, b.bidder)
    modifies coin`bids, coin.market.ledger`funds, coin.market.ledger`journal
    ensures Consistent(coin)
    ensures ok <==> b.additional <= old(AmountIn(coin.market.ledger.funds, Balance(b.bidder, coin.CollateralAsset())))
    ensures ok ==> var i := BidPlace(old(coin.bids), b); coin.bids == old(coin.bids[..i] + [b] + coin.bids[i..])
    ensures ok ==> b in coin.bids && HasBid(coin.bids, b.bidder)
    ensures ok ==> forall other: Bid :: other.bidder != b.bidder ==> (other in coin.bids <==> other in old(coin.bids))
    ensures ok ==>
      coin.market.ledger.journal
          == old(coin.market.ledger.journal) + [Posting(Balance(b.bidder, coin.CollateralAsset()), 0 - b.additional)]
    ensures !ok ==> coin.bids == old(coin.bids) && coin.market.ledger.journal == old(coin.market.ledger.journal)
    ensures forall a :: coin.Total(a) == old(coin.Total(a))
  {
    ok := coin.market.Post(Balance(b.bidder, coin.CollateralAsset()), 0 - b.additional);
    if ok {
      InsertBid(coin, b);
    }
  }

  method InsertBid(coin: Smartcoin, b: Bid)
    requires Consistent(coin) && b.debt > 0 && b.additional > 0 && !HasBid(coin.bids, b.bidder)
    modifies coin`bids
    ensures Consistent(coin)
    ensures var i := BidPlace(old(coin.bids), b); coin.bids == old(coin.bids[..i] + [b] + coin.bids[i..])
    ensures b in coin.bids && HasBid(coin.bids, b.bidder)
    ensures forall other: Bid :: other.bidder != b.bidder ==> (other in coin.bids <==> other in old(coin.bids))
    ensures forall a :: coin.Total(a) == old(coin.Total(a)) + if a == coin.CollateralAsset() then b.additional else 0
  {
    var i := BidPlace(coin.bids, b);
    InsertKeepsGoodBids(coin.bids, b);
    SumSeqInsert(coin.bids, i, b, (b: Bid) => b.additional);
    InsertedBid(coin.bids, i, b);
    coin.bids := coin.bids[..i] + [b] + coin.bids[i..];
  }

  /** The collateral of an account's old bid comes back, and that of its new bid is taken. */
  function BidPostings(bids: seq<Bid>, who: Account, additional: nat, debt: nat, collateral: Asset): seq<Posting> {
    (if HasBid(bids, who) then [Posting(Balance(who, collateral), AdditionalOf(bids, who))] else [])
    + if debt > 0 then [Posting(Balance(who, collateral), 0 - additional)] else []
  }

  /** `bid_collateral`: a new bid replaces the account's old one; a bid for no debt only
      cancels it. */
  method BidCollateral(coin: Smartcoin, who: Account, additional: nat, debt: nat) returns (ok: bool)
    requires coin.Valid() && coin.settlementPrice.Some? && !coin.isPredictionMarket
    requires debt > 0 ==> additional > 0
    modifies coin`bids, coin.market.ledger`funds, coin.market.ledger`journal
    ensures coin.Valid()
    ensures forall a :: coin.Total(a) == old(coin.Total(a))
    ensures ok ==> (debt > 0 <==> HasBid(coin.bids, who)) && (debt > 0 ==> Bid(who, additional, debt) in coin.bids)
    ensures ok && debt > 0 ==> InPlace(coin.bids, Bid(who, additional, debt))
    ensures ok ==>
      coin.market.ledger.journal
        == old(coin.market.ledger.journal) + BidPostings(old(coin.bids), who, additional, debt, coin.CollateralAsset())
    ensures forall other: Bid :: other.bidder != who ==> (other in coin.bids <==> other in old(coin.bids))
    ensures !ok ==> coin.bids == old(coin.bids) && coin.market.ledger.journal == old(coin.market.ledger.journal)
    ensures ok <==>
      && (debt > 0 || old(HasBid(coin.bids, who)))
      && additional <= old(AmountIn(coin.market.ledger.funds, Balance(who, coin.CollateralAsset())))
        + old(AdditionalOf(coin.bids, who))
  {
    var i := BidOf(coin.bids, who);
    var has := i < |coin.bids|;
    if !has && debt == 0 {
      return false;
    }
    if additional > AmountIn(coin.market.ledger.funds, Balance(who, coin.CollateralAsset()))
                    + (if has then coin.bids[i].additional else 0) {
      return false;
    }
    if has {
      CancelBid(coin, i);
    }
    if debt > 0 {
      PlaceBid(coin, Bid(who, additional, debt));
    }
    ok := true;
  }

  /** A bid that can be paid for. */
  method PlaceBid(coin: Smartcoin, b: Bid)
    requires Consistent(coin) && b.debt > 0 && b.additional > 0 && !HasBid(coin.bids, b.bidder)
    requires b.additional <= AmountIn(coin.market.ledger.funds, Balance(b.bidder, coin.CollateralAsset()))
    modifies coin`bids, coin.market.ledger`funds, coin.market.ledger`journal
    ensures Consistent(coin) && b in coin.bids && HasBid(coin.bids, b.bidder) && InPlace(coin.bids, b)
    ensures forall other: Bid :: other.bidder != b.bidder ==> (other in coin.bids <==> other in old(coin.bids))
    ensures coin.market.ledger.journal
              == old(coin.market.ledger.journal)
                + [Posting(Balance(b.bidder, coin.CollateralAsset()), 0 - b.additional)]
    ensures forall a :: coin.Total(a) == old(coin.Total(a))
  {
    InsertedInPlace(coin.bids, b);
    var ok := AddBid(coin, b);
  }

  /** The position of an account's bid, or the end. */
  method BidOf(bids: seq<Bid>, who: Account) returns (i: nat)
    ensures i <= |bids|
    ensures i < |bids| ==> bids[i].bidder == who && AdditionalOf(bids, who) == bids[i].additional
    ensures i == |bids| ==> !HasBid(bids, who) && AdditionalOf(bids, who) == 0
  {
    i := 0;
    while i < |bids| && bids[i].bidder != who
      invariant 0 <= i <= |bids|
      invariant forall j :: 0 <= j < i ==> bids[j].bidder != who
    {
      i := i + 1;
    }
    AdditionalIs(bids, i, who);
  }

  /** What an account has already put into its bid. */
  function AdditionalOf(bids: seq<Bid>, who: Account): nat {
    if bids == [] then 0 else if bids[0].bidder == who then bids[0].additional else AdditionalOf(bids[1..], who)
  }

  lemma {:induction false} AdditionalIs(bids: seq<Bid>, i: nat, who: Account)
    requires i <= |bids| && forall j :: 0 <= j < i ==> bids[j].bidder != who
    requires i < |bids| ==> bids[i].bidder == who
    ensures AdditionalOf(bids, who) == if i < |bids| then bids[i].additional else 0
  {
    if i > 0 {
      AdditionalIs(bids[1..], i - 1, who);
    }
  }

  // ----- selecting bids -----

  /** The debt the first `k` bids can take over together. */
  function CoveredBy(bids: seq<Bid>, k: nat, supply: nat): nat
    requires k <= |bids|
  {
    if k == 0 then 0 else CoveredBy(bids, k - 1, supply) + DebtIn(bids[k - 1], supply)
  }

  /** The collateral from the fund that goes with it. */
  function SharesOf(bids: seq<Bid>, k: nat, supply: nat, p: Price): nat
    requires k <= |bids| && p.base > 0
  {
    if k == 0 then 0 else SharesOf(bids, k - 1, supply, p) + ShareOf(bids[k - 1], supply, p)
  }

  /** The first pass stops with the first `n` bids: all of them are acceptable, none is more
      than is needed, and with less than enough the next one is missing or not acceptable. */
  ghost predicate Selected(bids: seq<Bid>, n: nat, supply: nat, p: Price, feed: Price, ratio: nat)
    requires p.base > 0
  {
    && n <= |bids|
    && (forall i :: 0 <= i < n ==> BidAcceptable(bids[i], supply, p, feed, ratio))
    && (n > 0 ==> CoveredBy(bids, n - 1, supply) < supply)
    && (CoveredBy(bids, n, supply) < supply && n < |bids| ==> !BidAcceptable(bids[n], supply, p, feed, ratio))
  }

  method SelectBids(bids: seq<Bid>, supply: nat, p: Price, feed: Price, ratio: nat) returns (n: nat, covered: nat)
    requires p.base > 0
    ensures Selected(bids, n, supply, p, feed, ratio) && covered == CoveredBy(bids, n, supply)
  {
    n, covered := 0, 0;
    while covered < supply && n < |bids|
      invariant n <= |bids| && covered == CoveredBy(bids, n, supply)
      invariant forall i :: 0 <= i < n ==> BidAcceptable(bids[i], supply, p, feed, ratio)
      invariant n > 0 ==> CoveredBy(bids, n - 1, supply) < supply
    {
      var bid := bids[n];
      var debtInBid := if bid.debt > supply then supply else bid.debt;
      var totalCollateral := Convert(debtInBid, p) + bid.additional;
      if !Acceptable(debtInBid, totalCollateral, feed, ratio) {
        break;
      }
      covered := covered + debtInBid;
      n := n + 1;
    }
  }

  // ----- executing bids -----

  function Less(a: nat, b: nat): nat {
    if b <= a then a - b else 0
  }

  /** The position of the `k`-th of `n` selected bids: all take what they offered to, except
      that the last takes what is left of the debt and of the fund. */
  function PositionOf(bids: seq<Bid>, k: nat, n: nat, supply: nat, fund: nat, p: Price): Call
    requires k < n <= |bids| && p.base > 0
  {
    if k < n - 1 then Call(bids[k].additional + ShareOf(bids[k], supply, p), DebtIn(bids[k], supply), None)
    else Call(bids[k].additional + Less(fund, SharesOf(bids, k, supply, p)), Less(supply, CoveredBy(bids, k, supply)),
              None)
  }

  /** All of these positions. */
  ghost function PositionsOf(bids: seq<Bid>, n: nat, supply: nat, fund: nat, p: Price): (r: seq<Call>)
    requires n <= |bids| && p.base > 0
    ensures |r| == n && forall k :: 0 <= k < n ==> r[k] == PositionOf(bids, k, n, supply, fund, p)
  {
    seq(n, k requires 0 <= k < n => PositionOf(bids, k, n, supply, fund, p))
  }

  /** The call orders of the first `k` bidders, once their positions are opened. */
  ghost function Opened(bids: seq<Bid>, positions: seq<Call>, k: nat): Calls
    requires k <= |positions| <= |bids|
  {
    if k == 0 then map[] else Opened(bids, positions, k - 1)[bids[k - 1].bidder := positions[k - 1]]
  }

  /** Each selected bidder has its position, and nobody else has one. */
  lemma {:induction false} OpenedIs(bids: seq<Bid>, positions: seq<Call>, k: nat)
    requires k <= |positions| <= |bids| && GoodBids(bids)
    ensures var calls := Opened(bids, positions, k);
            && (forall who :: who in calls ==> HasBid(bids[..k], who))
            && (forall i :: 0 <= i < k ==> bids[i].bidder in calls && calls[bids[i].bidder] == positions[i])
            && (k < |bids| ==> bids[k].bidder !in calls)
  {
    if k > 0 {
      OpenedIs(bids, positions, k - 1);
      OneMoreBidder(bids, k, Opened(bids, positions, k - 1), positions[k - 1]);
    }
  }

  lemma OneMoreBidder(bids: seq<Bid>, k: nat, calls: Calls, c: Call)
    requires 0 < k <= |bids| && GoodBids(bids)
    requires forall who :: who in calls ==> HasBid(bids[..k - 1], who)
    ensures forall who :: who in calls[bids[k - 1].bidder := c] ==> HasBid(bids[..k], who)
    ensures forall i :: 0 <= i < k - 1 ==> bids[i].bidder != bids[k - 1].bidder
    ensures k < |bids| ==> bids[k].bidder !in calls[bids[k - 1].bidder := c]
  {
    forall who | who in calls[bids[k - 1].bidder := c]
      ensures HasBid(bids[..k], who)
    {
      if who in calls {
        var i :| 0 <= i < k - 1 && bids[..k - 1][i].bidder == who;
        assert bids[..k][i].bidder == who;
      } else {
        assert bids[..k][k - 1].bidder == who;
      }
    }
    assert forall i :: 0 <= i < k - 1 ==> bids[..k - 1][i] == bids[i];
  }

  lemma {:induction false} CoveredMonotone(bids: seq<Bid>, j: nat, k: nat, supply: nat)
    requires j <= k <= |bids|
    ensures CoveredBy(bids, j, supply) <= CoveredBy(bids, k, supply)
    decreases k - j
  {
    if j < k {
      CoveredMonotone(bids, j, k - 1, supply);
    }
  }

  /** What is left of the fund always covers what is left of the debt. */
  lemma {:induction false} EnoughIsLeft(bids: seq<Bid>, k: nat, supply: nat, fund: nat, p: Price)
    requires k <= |bids| && Funded(supply, fund, p) && CoveredBy(bids, k, supply) < supply
    ensures SharesOf(bids, k, supply, p) <= fund
    ensures (supply - CoveredBy(bids, k, supply)) * p.quote <= (fund - SharesOf(bids, k, supply, p)) * p.base
  {
    if k > 0 {
      EnoughIsLeft(bids, k - 1, supply, fund, p);
      ShareLeavesEnough(supply - CoveredBy(bids, k - 1, supply), fund - SharesOf(bids, k - 1, supply, p), p,
                        DebtIn(bids[k - 1], supply));
    }
  }

  /** Every revived position is at least as collateralised as the one that was accepted; so it
      is acceptable itself. */
  lemma PositionIsAcceptable(bids: seq<Bid>, k: nat, n: nat, supply: nat, fund: nat, p: Price, feed: Price, ratio: nat)
    requires Funded(supply, fund, p) && Selected(bids, n, supply, p, feed, ratio)
    requires k < n && CoveredBy(bids, n, supply) >= supply && GoodBids(bids) && Positive(feed) && ratio > 0
    ensures CoveredBy(bids, k, supply) < supply && SharesOf(bids, k, supply, p) <= fund
    ensures var c := PositionOf(bids, k, n, supply, fund, p);
            && c.debt > 0 && c.collateral > 0
            && Acceptable(c.debt, c.collateral, feed, ratio)
            && (ShareOf(bids[k], supply, p) + bids[k].additional) * c.debt <= c.collateral * DebtIn(bids[k], supply)
  {
    CoveredMonotone(bids, k, n - 1, supply);
    EnoughIsLeft(bids, k, supply, fund, p);
    var c := PositionOf(bids, k, n, supply, fund, p);
    var accepted := ShareOf(bids[k], supply, p) + bids[k].additional;
    if k == n - 1 {
      LastBidIsNoWorse(bids[k], supply, p, c.debt, fund - SharesOf(bids, k, supply, p));
    }
    BetterIsAcceptable(DebtIn(bids[k], supply), accepted, c.debt, c.collateral, feed, ratio);
  }

  /** A position is opened with collateral that is already in the coin's keeping. */
  method OpenPosition(coin: Smartcoin, who: Account, collateral: nat, debt: nat)
    requires Consistent(coin) && who !in coin.calls && collateral > 0 && debt > 0
    modifies coin`calls, coin.market.ledger`coreInOrders
    ensures Consistent(coin)
    ensures coin.calls == old(coin.calls)[who := Call(collateral, debt, None)]
    ensures Debts(coin.calls) == old(Debts(coin.calls)) + debt
    ensures forall a :: coin.Total(a) == old(coin.Total(a)) + if a == coin.CollateralAsset() then collateral else 0
  {
    CallsPut(coin.calls, who, Call(collateral, debt, None));
    coin.calls := coin.calls[who := Call(collateral, debt, None)];
    if coin.CollateralAsset() == CORE {
      coin.market.ledger.AdjustCoreInOrders(who, collateral);
    }
    forall a
      ensures coin.CoreGap(a)
                == old(coin.CoreGap(a)) + if a == who && coin.CollateralAsset() == CORE then collateral else 0
    {
    }
  }

  /** `execute_bid` of the best bid. */
  method ExecuteBid(coin: Smartcoin, debtCovered: nat, collateralFromFund: nat)
    requires Consistent(coin) && coin.bids != [] && coin.bids[0].bidder !in coin.calls && debtCovered > 0
    modifies coin`calls, coin`bids, coin.market.ledger`coreInOrders
    ensures Consistent(coin)
    ensures coin.bids == old(coin.bids)[1..]
    ensures var b := old(coin.bids)[0];
            coin.calls == old(coin.calls)[b.bidder := Call(b.additional + collateralFromFund, debtCovered, None)]
    ensures Debts(coin.calls) == old(Debts(coin.calls)) + debtCovered
    ensures forall a ::
      coin.Total(a) == old(coin.Total(a)) + if a == coin.CollateralAsset() then collateralFromFund else 0
  {
    var b := coin.bids[0];
    RemoveBid(coin, 0);
    OpenPosition(coin, b.bidder, b.additional + collateralFromFund, debtCovered);
  }

  /** The next `k`-th of `n` bids makes an end of what is left, if and only if it is the last. */
  ghost predicate Left(bids: seq<Bid>, k: nat, n: nat, supply: nat, fund: nat, p: Price, toCover: nat,
                       remainingFund: nat)
    requires k <= n <= |bids| && p.base > 0
  {
    if k < n then toCover + CoveredBy(bids, k, supply) == supply && remainingFund + SharesOf(bids, k, supply, p) == fund
    else toCover == 0 && remainingFund == 0
  }

  ghost predicate Enough(bids: seq<Bid>, n: nat, supply: nat) {
    0 < n <= |bids| && CoveredBy(bids, n - 1, supply) < supply <= CoveredBy(bids, n, supply)
  }

  /** The debt and the collateral of one bid of the second pass. */
  method Hand(bids: seq<Bid>, k: nat, ghost n: nat, supply: nat, ghost fund: nat, p: Price, toCover: nat,
              remainingFund: nat)
    returns (debt: nat, collateral: nat)
    requires Funded(supply, fund, p) && GoodBids(bids) && Enough(bids, n, supply) && k < n
    requires Left(bids, k, n, supply, fund, p, toCover, remainingFund)
    ensures 0 < debt <= toCover && collateral <= remainingFund
    ensures Call(bids[k].additional + collateral, debt, None) == PositionOf(bids, k, n, supply, fund, p)
    ensures Left(bids, k + 1, n, supply, fund, p, toCover - debt, remainingFund - collateral)
  {
    CoveredMonotone(bids, k, n - 1, supply);
    EnoughIsLeft(bids, k, supply, fund, p);
    debt := if bids[k].debt > supply then supply else bids[k].debt;
    collateral := Convert(debt, p);
    if debt >= toCover {
      if k < n - 1 {
        CoveredMonotone(bids, k + 1, n - 1, supply);
      }
      debt := toCover;
      collateral := remainingFund;
    } else {
      ShareLeavesEnough(toCover, remainingFund, p, debt);
    }
  }

  /** How far the second pass is: the first `k` bids have their positions. */
  ghost predicate Handed(bids: seq<Bid>, k: nat, n: nat, supply: nat, fund: nat, p: Price, toCover: nat,
                         remainingFund: nat, calls: Calls, rest: seq<Bid>)
    requires k <= n && Enough(bids, n, supply) && Funded(supply, fund, p)
  {
    && Left(bids, k, n, supply, fund, p, toCover, remainingFund)
    && rest == bids[k..]
    && calls == Opened(bids, PositionsOf(bids, n, supply, fund, p), k)
    && Debts(calls) == supply - toCover
  }

  /** The next bid becomes a position. */
  method ExecuteNext(coin: Smartcoin, bids: seq<Bid>, k: nat, debt: nat, collateral: nat, ghost positions: seq<Call>)
    requires Consistent(coin) && GoodBids(bids) && k < |positions| <= |bids| && coin.bids == bids[k..] && debt > 0
    requires coin.calls == Opened(bids, positions, k)
    requires positions[k] == Call(bids[k].additional + collateral, debt, None)
    modifies coin`calls, coin`bids, coin.market.ledger`coreInOrders
    ensures Consistent(coin) && coin.bids == bids[k + 1..] && coin.calls == Opened(bids, positions, k + 1)
    ensures Debts(coin.calls) == old(Debts(coin.calls)) + debt
    ensures forall a :: coin.Total(a) == old(coin.Total(a)) + if a == coin.CollateralAsset() then collateral else 0
  {
    OpenedIs(bids, positions, k);
    ExecuteBid(coin, debt, collateral);
  }

  /** One round of the second pass. */
  method HandNext(coin: Smartcoin, bids: seq<Bid>, k: nat, n: nat, p: Price, toCover: nat, remainingFund: nat)
    returns (debt: nat, collateral: nat)
    requires Consistent(coin) && GoodBids(bids) && k < n && Enough(bids, n, coin.supply)
    requires Funded(coin.supply, coin.settlementFund, p)
    requires Handed(bids, k, n, coin.supply, coin.settlementFund, p, toCover, remainingFund, coin.calls, coin.bids)
    modifies coin`calls, coin`bids, coin.market.ledger`coreInOrders
    ensures Consistent(coin) && debt <= toCover && collateral <= remainingFund
    ensures Handed(bids, k + 1, n, coin.supply, coin.settlementFund, p, toCover - debt, remainingFund - collateral,
                   coin.calls, coin.bids)
    ensures forall a :: coin.Total(a) == old(coin.Total(a)) + if a == coin.CollateralAsset() then collateral else 0
  {
    ghost var positions := PositionsOf(bids, n, coin.supply, coin.settlementFund, p);
    debt, collateral := Hand(bids, k, n, coin.supply, coin.settlementFund, p, toCover, remainingFund);
    ExecuteNext(coin, bids, k, debt, collateral, positions);
  }

  /** The second pass: neither of its two final assertions fails. */
  method HandOut(coin: Smartcoin, n: nat)
    requires Consistent(coin) && coin.calls == map[] && coin.settlementPrice.Some?
    requires Funded(coin.supply, coin.settlementFund, coin.settlementPrice.value) && Enough(coin.bids, n, coin.supply)
    modifies coin`calls, coin`bids, coin.market.ledger`coreInOrders
    ensures Consistent(coin) && coin.bids == old(coin.bids)[n..]
    ensures coin.calls
              == Opened(old(coin.bids),
                        PositionsOf(old(coin.bids), n, coin.supply, coin.settlementFund, coin.settlementPrice.value), n)
    ensures Debts(coin.calls) == coin.supply
    ensures forall a ::
      coin.Total(a) == old(coin.Total(a)) + if a == coin.CollateralAsset() then coin.settlementFund else 0
  {
    var bids, p := coin.bids, coin.settlementPrice.value;
    var toCover, remainingFund := coin.supply, coin.settlementFund;
    var k := 0;
    while k < n
      invariant k <= n && Consistent(coin)
      invariant Handed(bids, k, n, coin.supply, coin.settlementFund, p, toCover, remainingFund, coin.calls, coin.bids)
      invariant forall a ::
        coin.Total(a)
          == old(coin.Total(a)) + if a == coin.CollateralAsset() then coin.settlementFund - remainingFund else 0
    {
      var debt, collateral := HandNext(coin, bids, k, n, p, toCover, remainingFund);
      toCover := toCover - debt;
      remainingFund := remainingFund - collateral;
      k := k + 1;
    }
    assert remainingFund == 0;
    assert toCover == 0;
  }

  // ----- revival -----

  /** What goes back to the bidders when bids are cancelled. */
  function Refunds(bids: seq<Bid>, collateral: Asset): seq<Posting> {
    if bids == [] then []
    else [Posting(Balance(bids[0].bidder, collateral), bids[0].additional)] + Refunds(bids[1..], collateral)
  }

  /** Cancels all bids that are left. */
  method CancelBids(coin: Smartcoin)
    requires Consistent(coin)
    modifies coin`bids, coin.market.ledger`funds, coin.market.ledger`journal
    ensures Consistent(coin) && coin.bids == []
    ensures coin.market.ledger.journal
              == old(coin.market.ledger.journal) + Refunds(old(coin.bids), coin.CollateralAsset())
    ensures forall a :: coin.Total(a) == old(coin.Total(a))
  {
    ghost var all := coin.market.ledger.journal + Refunds(coin.bids, coin.CollateralAsset());
    while coin.bids != []
      invariant Consistent(coin) && forall a :: coin.Total(a) == old(coin.Total(a))
      invariant coin.market.ledger.journal + Refunds(coin.bids, coin.CollateralAsset()) == all
      decreases |coin.bids|
    {
      ghost var journal, bids := coin.market.ledger.journal, coin.bids;
      CancelBid(coin, 0);
      RefundNext(journal, bids, coin.CollateralAsset());
      assert coin.bids == bids[1..];
    }
  }

  lemma RefundNext(journal: seq<Posting>, bids: seq<Bid>, collateral: Asset)
    requires bids != []
    ensures journal + [Posting(Balance(bids[0].bidder, collateral), bids[0].additional)]
              + Refunds(bids[1..], collateral)
            == journal + Refunds(bids, collateral)
  {
  }

  /** `_cancel_bids_and_revive_mpa`, once nothing is left of the fund. */
  method CancelBidsAndRevive(coin: Smartcoin)
    requires Consistent(coin) && coin.PoolIsSound() && coin.pool == Pool(0, 0) && coin.supply == Debts(coin.calls)
    modifies coin`bids, coin`settlementPrice, coin`settlementFund, coin.market.ledger`funds, coin.market.ledger`journal
    ensures coin.Coherent()
    ensures coin.settlementPrice == None && coin.settlementFund == 0 && coin.bids == []
    ensures coin.market.ledger.journal
              == old(coin.market.ledger.journal) + Refunds(old(coin.bids), coin.CollateralAsset())
    ensures forall a ::
              coin.Total(a) == old(coin.Total(a)) - if a == coin.CollateralAsset() then old(coin.settlementFund) else 0
  {
    CancelBids(coin);
    coin.settlementPrice := None;
    coin.settlementFund := 0;
  }

  /** `process_bids`: when the best acceptable bids together take over the whole supply, they
      become positions, which use up the fund exactly, and the coin is revived. */
  method ProcessBids(coin: Smartcoin, feed: Option<Price>, icr: nat) returns (revived: bool, ghost n: nat)
    requires coin.Valid() && coin.settlementPrice.Some?
    requires feed.Some? ==> Positive(feed.value) && icr > 0
    modifies coin`calls, coin`bids, coin`settlementPrice, coin`settlementFund, coin.market.ledger
    ensures coin.Valid()
    ensures forall a :: coin.Total(a) == old(coin.Total(a))
    ensures revived == coin.settlementPrice.None?
    ensures revived ==> n <= |old(coin.bids)| && !coin.isPredictionMarket && feed.Some?
    ensures revived ==>
      coin.calls
          == Opened(old(coin.bids),
                    PositionsOf(old(coin.bids), n, coin.supply, old(coin.settlementFund),
                                old(coin.settlementPrice).value), n)
    ensures revived ==>
      forall who :: who in coin.calls ==> Acceptable(coin.calls[who].debt, coin.calls[who].collateral, feed.value, icr)
    ensures revived && coin.supply > 0 ==>
      && Selected(old(coin.bids), n, coin.supply, old(coin.settlementPrice).value, feed.value, icr)
      && Enough(old(coin.bids), n, coin.supply)
    ensures revived && coin.supply == 0 ==> n == 0
    ensures coin.market.ledger.journal
              == old(coin.market.ledger.journal)
                 + if revived then Refunds(old(coin.bids)[n..], coin.CollateralAsset()) else []
    ensures !revived ==>
      coin.calls == old(coin.calls) && coin.bids == old(coin.bids) && coin.settlementFund == old(coin.settlementFund)
    ensures !revived && !coin.isPredictionMarket && feed.Some? ==>
      && Selected(coin.bids, n, coin.supply, coin.settlementPrice.value, feed.value, icr)
      && CoveredBy(coin.bids, n, coin.supply) < coin.supply
  {
    revived, n := false, 0;
    if coin.isPredictionMarket || feed.None? {
      return;
    }
    if coin.supply == 0 {
      assert coin.bids[0..] == coin.bids;
      CancelBidsAndRevive(coin);
      return true, 0;
    }
    var k, covered := SelectBids(coin.bids, coin.supply, coin.settlementPrice.value, feed.value, icr);
    n := k;
    if covered < coin.supply {
      return;
    }
    RevivedAreAcceptable(coin.bids, n, coin.supply, coin.settlementFund, coin.settlementPrice.value, feed.value, icr);
    TakeOver(coin, k);
    revived := true;
  }

  /** The selected bids are executed, the others cancelled, and the coin is revived. */
  method TakeOver(coin: Smartcoin, n: nat)
    requires coin.Valid() && coin.settlementPrice.Some? && Enough(coin.bids, n, coin.supply)
    modifies coin`calls, coin`bids, coin`settlementPrice, coin`settlementFund, coin.market.ledger
    ensures coin.Valid() && coin.settlementPrice.None?
    ensures forall a :: coin.Total(a) == old(coin.Total(a))
    ensures coin.calls
              == Opened(old(coin.bids),
                        PositionsOf(old(coin.bids), n, coin.supply, old(coin.settlementFund),
                                    old(coin.settlementPrice).value), n)
    ensures coin.market.ledger.journal
              == old(coin.market.ledger.journal) + Refunds(old(coin.bids)[n..], coin.CollateralAsset())
  {
    HandOut(coin, n);
    CancelBidsAndRevive(coin);
  }

  lemma RevivedAreAcceptable(bids: seq<Bid>, n: nat, supply: nat, fund: nat, p: Price, feed: Price, ratio: nat)
    requires Funded(supply, fund, p) && Selected(bids, n, supply, p, feed, ratio)
    requires CoveredBy(bids, n, supply) >= supply && GoodBids(bids) && Positive(feed) && ratio > 0
    ensures var calls := Opened(bids, PositionsOf(bids, n, supply, fund, p), n);
            forall who :: who in calls ==> Acceptable(calls[who].debt, calls[who].collateral, feed, ratio)
  {
    var positions := PositionsOf(bids, n, supply, fund, p);
    var calls := Opened(bids, positions, n);
    OpenedIs(bids, positions, n);
    forall who | who in calls
      ensures Acceptable(calls[who].debt, calls[who].collateral, feed, ratio)
    {
      var i :| 0 <= i < |bids[..n]| && bids[..n][i].bidder == who;
      assert bids[i].bidder == who;
      PositionIsAcceptable(bids, i, n, supply, fund, p, feed, ratio);
    }
  }

  /** `revive_bitasset`: the issuer takes over the whole debt and the whole fund, by a bid
      created for the purpose. An account has at most one bid on a coin: while the issuer has
      placed one, that bid cannot be created and the coin is not revived. */
  method ReviveBitasset(coin: Smartcoin, issuer: Account) returns (ok: bool)
    requires coin.Valid() && coin.settlementPrice.Some? && !coin.isPredictionMarket
    modifies coin`calls, coin`bids, coin`settlementPrice, coin`settlementFund, coin.market.ledger
    ensures coin.Valid()
    ensures forall a :: coin.Total(a) == old(coin.Total(a))
    ensures ok <==> coin.supply == 0 || !HasBid(old(coin.bids), issuer)
    ensures ok ==> coin.settlementPrice.None? && coin.bids == []
    ensures ok ==>
      coin.calls == if coin.supply == 0 then map[] else map[issuer := Call(old(coin.settlementFund), coin.supply, None)]
    ensures ok && coin.supply > 0 ==>
      AtMost(Inverse(old(coin.settlementPrice).value), Collateralization(coin.calls[issuer]))
    ensures !ok ==>
      && coin.settlementPrice == old(coin.settlementPrice) && coin.bids == old(coin.bids)
      && coin.calls == old(coin.calls)
      && coin.market.ledger.journal == old(coin.market.ledger.journal)
    ensures ok ==>
      coin.market.ledger.journal == old(coin.market.ledger.journal) + Refunds(old(coin.bids), coin.CollateralAsset())
  {
    if coin.supply > 0 {
      var i := BidOf(coin.bids, issuer);
      if i < |coin.bids| {
        return false;
      }
      FundIsEnough(coin.supply, coin.settlementFund, coin.settlementPrice.value);
      IssuerTakesOver(coin, issuer);
    } else {
      CancelBidsAndRevive(coin);
    }
    ok := true;
  }

  /** The bid that is created for the issuer is executed, the others are cancelled. */
  method IssuerTakesOver(coin: Smartcoin, issuer: Account)
    requires coin.Valid() && coin.settlementPrice.Some? && !coin.isPredictionMarket && coin.supply > 0
    requires !HasBid(coin.bids, issuer)
    modifies coin`calls, coin`bids, coin`settlementPrice, coin`settlementFund, coin.market.ledger
    ensures coin.Valid()
    ensures forall a :: coin.Total(a) == old(coin.Total(a))
    ensures coin.settlementPrice.None? && coin.bids == []
    ensures coin.calls == map[issuer := Call(old(coin.settlementFund), coin.supply, None)]
    ensures coin.market.ledger.journal
              == old(coin.market.ledger.journal) + Refunds(old(coin.bids), coin.CollateralAsset())
  {
    FundIsPositive(coin.supply, coin.settlementFund, coin.settlementPrice.value);
    OpenPosition(coin, issuer, coin.settlementFund, coin.supply);
    CancelBidsAndRevive(coin);
  }

  /** That happens: whatever the coin's state, an issuer that can afford a bid blocks the revival by
      placing it. Under the policy of this chain no such coin is ever globally settled. */
  method OwnBidBlocksRevival(coin: Smartcoin, issuer: Account, additional: nat, debt: nat)
    returns (placed: bool, revived: bool)
    requires coin.Valid() && coin.settlementPrice.Some? && !coin.isPredictionMarket && coin.supply > 0
    requires additional > 0 && debt > 0
    requires additional <= AmountIn(coin.market.ledger.funds, Balance(issuer, coin.CollateralAsset()))
    modifies coin`calls, coin`bids, coin`settlementPrice, coin`settlementFund, coin.market.ledger
    ensures placed && !revived && coin.settlementPrice == old(coin.settlementPrice) && coin.supply == old(coin.supply)
  {
    placed := BidCollateral(coin, issuer, additional, debt);
    revived := ReviveBitasset(coin, issuer);
  }

  /** The whole fund for the whole supply is no worse than the settlement price. */
  lemma FundIsEnough(supply: nat, fund: nat, p: Price)
    requires Funded(supply, fund, p)
    ensures AtMost(Inverse(p), Collateralization(Call(fund, supply, None)))
  {
  }

  lemma FundIsPositive(supply: nat, fund: nat, p: Price)
    requires Funded(supply, fund, p) && supply > 0 && p.quote > 0
    ensures fund > 0
  {
    MulPos(supply, p.quote);
  }
}
