/** Credit offers, the deals made on them, and the summary of each borrower's deals on each
    offer: three records of the same debts that must stay in step. */
module CreditOffers {
  import opened Options
  import opened Rounding
  import opened Prices
  import opened Sums
  import opened Ledgers
  import opened LimitMatching
  import opened CreditDeals

  const MAX_TIME := 0xFFFF_FFFF
  const MAX_DEAL_SECONDS := 380 * 86400
  const MAX_OFFER_SECONDS := 380 * 86400

  datatype Offer = Offer(
    owner: Account,
    asset: Asset,
    total: nat,
    current: nat,
    terms: OfferTerms)

  datatype OfferTerms = OfferTerms(
    feeRate: nat,
    maxDuration: nat,
    minDealAmount: nat,
    enabled: bool,
    autoDisableTime: nat,
    /** For each kind of collateral its price, debt over collateral. */
    acceptableCollateral: map<Asset, Price>,
    /** Nobody is excluded when this is empty. */
    acceptableBorrowers: map<Account, nat>)

  datatype AutoRepayment = NoAutoRepayment | OnlyFullRepayment | AllowPartialRepayment

  datatype Deal = Deal(
    borrower: Account,
    offer: nat,
    offerOwner: Account,
    debtAsset: Asset,
    debt: nat,
    collateralAsset: Asset,
    collateral: nat,
    feeRate: nat,
    latestRepayTime: nat,
    autoRepay: AutoRepayment)

  type Offers = map<nat, Offer>
  type Deals = map<nat, Deal>
  type Summaries = map<(nat, Account), nat>

  predicate GoodTerms(t: OfferTerms) {
    && t.maxDuration <= MAX_DEAL_SECONDS
    && forall a :: a in t.acceptableCollateral ==> Positive(t.acceptableCollateral[a])
  }

  // ----- the three records -----

  /** The debts of all deals on an offer, and of one borrower's deals on it. */
  ghost function Owed(deals: Deals, offer: nat): int {
    Sum(deals, (id: nat, d: Deal) => if d.offer == offer then d.debt else 0)
  }

  ghost function OwedBy(deals: Deals, offer: nat, borrower: Account): int {
    Sum(deals, (id: nat, d: Deal) => if d.offer == offer && d.borrower == borrower then d.debt else 0)
  }

  function SummaryOf(summaries: Summaries, offer: nat, borrower: Account): nat {
    if (offer, borrower) in summaries then summaries[(offer, borrower)] else 0
  }

  /** A deal is open, on an offer that exists, and agrees with it. */
  predicate DealMatches(d: Deal, offers: Offers) {
    && d.debt > 0 && d.collateral > 0
    && d.offer in offers && d.offerOwner == offers[d.offer].owner && d.debtAsset == offers[d.offer].asset
  }

  ghost predicate InStep(offers: Offers, deals: Deals, summaries: Summaries) {
    && (forall id :: id in deals ==> DealMatches(deals[id], offers))
    && (forall id {:trigger Owed(deals, id)} ::
          id in offers ==> offers[id].total - offers[id].current == Owed(deals, id))
    && (forall o, b {:trigger OwedBy(deals, o, b)} :: SummaryOf(summaries, o, b) == OwedBy(deals, o, b))
    && (forall key :: key in summaries ==> summaries[key] > 0)
  }

  lemma DealPut(deals: Deals, id: nat, d: Deal)
    ensures forall o :: Owed(deals[id := d], o)
              == Owed(deals, o) - (if id in deals && deals[id].offer == o then deals[id].debt else 0)
                + (if d.offer == o then d.debt else 0)
    ensures forall o, b :: OwedBy(deals[id := d], o, b)
              == OwedBy(deals, o, b)
                - (if id in deals && deals[id].offer == o && deals[id].borrower == b then deals[id].debt else 0)
                 + (if d.offer == o && d.borrower == b then d.debt else 0)
  {
    forall o {
      SumPut(deals, (i: nat, x: Deal) => if x.offer == o then x.debt else 0, id, d);
    }
    forall o, b {
      SumPut(deals, (i: nat, x: Deal) => if x.offer == o && x.borrower == b then x.debt else 0, id, d);
    }
  }

  lemma DealRemove(deals: Deals, id: nat)
    requires id in deals
    ensures forall o :: Owed(deals - {id}, o) == Owed(deals, o) - (if deals[id].offer == o then deals[id].debt else 0)
    ensures forall o, b :: OwedBy(deals - {id}, o, b)
              == OwedBy(deals, o, b) - (if deals[id].offer == o && deals[id].borrower == b then deals[id].debt else 0)
  {
    forall o {
      SumRemove(deals, (i: nat, x: Deal) => if x.offer == o then x.debt else 0, id);
    }
    forall o, b {
      SumRemove(deals, (i: nat, x: Deal) => if x.offer == o && x.borrower == b then x.debt else 0, id);
    }
  }

  lemma DebtBound(deals: Deals, id: nat)
    requires id in deals
    ensures deals[id].debt <= OwedBy(deals, deals[id].offer, deals[id].borrower)
    ensures deals[id].debt <= Owed(deals, deals[id].offer)
  {
    var d := deals[id];
    SumNonNegative(deals, (i: nat, x: Deal) => if x.offer == d.offer then x.debt else 0);
    SumNonNegative(deals, (i: nat, x: Deal) => if x.offer == d.offer && x.borrower == d.borrower then x.debt else 0);
  }

  lemma OwedNonNegative(deals: Deals, offer: nat)
    ensures Owed(deals, offer) >= 0
  {
    SumNonNegative(deals, (i: nat, x: Deal) => if x.offer == offer then x.debt else 0);
  }

  /** An offer can be deleted exactly when there is no deal on it. */
  lemma DeletableIffNoDeals(offers: Offers, deals: Deals, summaries: Summaries, offer: nat)
    requires InStep(offers, deals, summaries) && offer in offers
    ensures offers[offer].total == offers[offer].current <==> forall id :: id in deals ==> deals[id].offer != offer
  {
    assert offers[offer].total - offers[offer].current == Owed(deals, offer);
    if forall id :: id in deals ==> deals[id].offer != offer {
      SumZero(deals, (i: nat, x: Deal) => if x.offer == offer then x.debt else 0);
    } else {
      var id :| id in deals && deals[id].offer == offer;
      DebtBound(deals, id);
    }
  }

  /** A summary exists exactly when the borrower has a deal on the offer: the lookup in a
      repayment never fails. */
  lemma SummaryIffDeal(offers: Offers, deals: Deals, summaries: Summaries, offer: nat, borrower: Account)
    requires InStep(offers, deals, summaries)
    ensures (offer, borrower) in summaries <==>
      exists id :: id in deals && deals[id].offer == offer && deals[id].borrower == borrower
  {
    assert SummaryOf(summaries, offer, borrower) == OwedBy(deals, offer, borrower);
    if id :| id in deals && deals[id].offer == offer && deals[id].borrower == borrower {
      DebtBound(deals, id);
    } else {
      SumZero(deals, (i: nat, x: Deal) => if x.offer == offer && x.borrower == borrower then x.debt else 0);
    }
  }

  /** The "defensive" comparison of the two balances of an offer is redundant. */
  lemma CurrentAtMostTotal(offers: Offers, deals: Deals, summaries: Summaries, offer: nat)
    requires InStep(offers, deals, summaries) && offer in offers
    ensures offers[offer].current <= offers[offer].total
  {
    OwedNonNegative(deals, offer);
  }

  // ----- transitions of the three records -----

  function Borrowed(offers: Offers, d: Deal): Offers
    requires d.offer in offers && d.debt <= offers[d.offer].current
  {
    offers[d.offer := offers[d.offer].(current := offers[d.offer].current - d.debt)]
  }

  lemma AcceptKeeps(offers: Offers, deals: Deals, summaries: Summaries, id: nat, d: Deal)
    requires InStep(offers, deals, summaries) && id !in deals
    requires DealMatches(d, offers) && d.debt <= offers[d.offer].current
    ensures InStep(Borrowed(offers, d), deals[id := d],
                   summaries[(d.offer, d.borrower) := SummaryOf(summaries, d.offer, d.borrower) + d.debt])
  {
    DealPut(deals, id, d);
    forall o | o in offers
      ensures Borrowed(offers, d)[o].total - Borrowed(offers, d)[o].current == Owed(deals[id := d], o)
    {
      assert offers[o].total - offers[o].current == Owed(deals, o);
    }
    var after := summaries[(d.offer, d.borrower) := SummaryOf(summaries, d.offer, d.borrower) + d.debt];
    forall o, b
      ensures SummaryOf(after, o, b) == OwedBy(deals[id := d], o, b)
    {
      assert SummaryOf(summaries, o, b) == OwedBy(deals, o, b);
    }
  }

  /** Neither the terms of an offer nor how a deal repays itself matter to the records. */
  lemma OfferKeeps(offers: Offers, deals: Deals, summaries: Summaries, id: nat, o: Offer)
    requires InStep(offers, deals, summaries) && id in offers
    requires o.owner == offers[id].owner && o.asset == offers[id].asset
    requires o.total - o.current == offers[id].total - offers[id].current
    ensures InStep(offers[id := o], deals, summaries)
  {
    forall i | i in offers
      ensures offers[id := o][i].total - offers[id := o][i].current == Owed(deals, i)
    {
    }
  }

  lemma DealKeeps(offers: Offers, deals: Deals, summaries: Summaries, id: nat, autoRepay: AutoRepayment)
    requires InStep(offers, deals, summaries) && id in deals
    ensures InStep(offers, deals[id := deals[id].(autoRepay := autoRepay)], summaries)
  {
    var after := deals[id := deals[id].(autoRepay := autoRepay)];
    DealPut(deals, id, deals[id].(autoRepay := autoRepay));
    forall i | i in offers
      ensures offers[i].total - offers[i].current == Owed(after, i)
    {
      assert offers[i].total - offers[i].current == Owed(deals, i);
    }
    forall o, b
      ensures SummaryOf(summaries, o, b) == OwedBy(after, o, b)
    {
      assert SummaryOf(summaries, o, b) == OwedBy(deals, o, b);
    }
  }

  /** A deal, and a summary, after part of the debt is gone. */
  function DealLess(deals: Deals, id: nat, amount: nat, released: nat): Deals
    requires id in deals && amount <= deals[id].debt && released <= deals[id].collateral
  {
    if amount == deals[id].debt then deals - {id}
    else deals[id := deals[id].(debt := deals[id].debt - amount, collateral := deals[id].collateral - released)]
  }

  function SummaryLess(summaries: Summaries, key: (nat, Account), amount: nat): Summaries
    requires key in summaries && amount <= summaries[key]
  {
    if amount == summaries[key] then summaries - {key} else summaries[key := summaries[key] - amount]
  }

  /** A debt goes away, by repayment or by expiry, from all three records at once. */
  lemma DebtGoes(offers: Offers, deals: Deals, summaries: Summaries, id: nat, amount: nat, released: nat, offer: Offer)
    requires InStep(offers, deals, summaries) && id in deals
    requires amount <= deals[id].debt && released <= deals[id].collateral
    requires amount < deals[id].debt ==> released < deals[id].collateral
    requires var was := offers[deals[id].offer];
             && offer.owner == was.owner && offer.asset == was.asset
             && offer.total - offer.current == was.total - was.current - amount
    ensures (deals[id].offer, deals[id].borrower) in summaries
    ensures amount <= summaries[(deals[id].offer, deals[id].borrower)]
    ensures InStep(offers[deals[id].offer := offer], DealLess(deals, id, amount, released),
                   SummaryLess(summaries, (deals[id].offer, deals[id].borrower), amount))
  {
    var d := deals[id];
    DebtBound(deals, id);
    assert SummaryOf(summaries, d.offer, d.borrower) == OwedBy(deals, d.offer, d.borrower);
    if amount == d.debt {
      DealRemove(deals, id);
    } else {
      DealPut(deals, id, d.(debt := d.debt - amount, collateral := d.collateral - released));
    }
    forall o | o in offers
      ensures offers[d.offer := offer][o].total - offers[d.offer := offer][o].current
                == Owed(DealLess(deals, id, amount, released), o)
    {
      assert offers[o].total - offers[o].current == Owed(deals, o);
    }
    var after := SummaryLess(summaries, (d.offer, d.borrower), amount);
    forall o, b
      ensures SummaryOf(after, o, b) == OwedBy(DealLess(deals, id, amount, released), o, b)
    {
      assert SummaryOf(summaries, o, b) == OwedBy(deals, o, b);
    }
  }

  // ----- what is kept of an asset -----

  ghost function Lendable(offers: Offers, asset: Asset): int {
    Sum(offers, (id: nat, o: Offer) => if o.asset == asset then o.current else 0)
  }

  ghost function Deposits(deals: Deals, asset: Asset): int {
    Sum(deals, (id: nat, d: Deal) => if d.collateralAsset == asset then d.collateral else 0)
  }

  lemma LendablePut(offers: Offers, id: nat, o: Offer)
    ensures forall a :: Lendable(offers[id := o], a)
              == Lendable(offers, a) - (if id in offers && offers[id].asset == a then offers[id].current else 0)
                + (if o.asset == a then o.current else 0)
  {
    forall a {
      SumPut(offers, (i: nat, x: Offer) => if x.asset == a then x.current else 0, id, o);
    }
  }

  lemma LendableRemove(offers: Offers, id: nat)
    requires id in offers
    ensures forall a ::
      Lendable(offers - {id}, a) == Lendable(offers, a) - if offers[id].asset == a then offers[id].current else 0
  {
    forall a {
      SumRemove(offers, (i: nat, x: Offer) => if x.asset == a then x.current else 0, id);
    }
  }

  lemma DepositsPut(deals: Deals, id: nat, d: Deal)
    ensures forall a :: Deposits(deals[id := d], a)
              == Deposits(deals, a)
                - (if id in deals && deals[id].collateralAsset == a then deals[id].collateral else 0)
                 + (if d.collateralAsset == a then d.collateral else 0)
  {
    forall a {
      SumPut(deals, (i: nat, x: Deal) => if x.collateralAsset == a then x.collateral else 0, id, d);
    }
  }

  lemma DepositsLess(deals: Deals, id: nat, amount: nat, released: nat)
    requires id in deals && amount <= deals[id].debt && released <= deals[id].collateral
    requires amount == deals[id].debt ==> released == deals[id].collateral
    ensures forall a ::
      Deposits(DealLess(deals, id, amount, released), a)
        == Deposits(deals, a) - if deals[id].collateralAsset == a then released else 0
  {
    DepositsPut(deals, id, deals[id].(debt := deals[id].debt - amount, collateral := deals[id].collateral - released));
    forall a {
      SumRemove(deals, (i: nat, x: Deal) => if x.collateralAsset == a then x.collateral else 0, id);
    }
  }

  // ----- operations -----

  /** Optional changes of an offer. */
  datatype OfferUpdate = OfferUpdate(
    delta: Option<int>,
    feeRate: Option<nat>,
    maxDuration: Option<nat>,
    minDealAmount: Option<nat>,
    enabled: Option<bool>,
    autoDisableTime: Option<nat>,
    acceptableCollateral: Option<map<Asset, Price>>,
    acceptableBorrowers: Option<map<Account, nat>>)

  function Or<T>(x: Option<T>, otherwise: T): T {
    if x.Some? then x.value else otherwise
  }

  function NewTerms(t: OfferTerms, u: OfferUpdate): OfferTerms {
    OfferTerms(Or(u.feeRate, t.feeRate), Or(u.maxDuration, t.maxDuration), Or(u.minDealAmount, t.minDealAmount),
               Or(u.enabled, t.enabled), Or(u.autoDisableTime, t.autoDisableTime),
               Or(u.acceptableCollateral, t.acceptableCollateral), Or(u.acceptableBorrowers, t.acceptableBorrowers))
  }

  /** What is given takes the place of what was, and nothing else changes. */
  lemma NewTermsAre(t: OfferTerms, u: OfferUpdate)
    ensures var r := NewTerms(t, u);
            && (if u.feeRate.Some? then r.feeRate == u.feeRate.value else r.feeRate == t.feeRate)
            && (if u.maxDuration.Some? then r.maxDuration == u.maxDuration.value else r.maxDuration == t.maxDuration)
            && (if u.minDealAmount.Some? then r.minDealAmount == u.minDealAmount.value
                else r.minDealAmount == t.minDealAmount)
            && (if u.enabled.Some? then r.enabled == u.enabled.value else r.enabled == t.enabled)
            && (if u.autoDisableTime.Some? then r.autoDisableTime == u.autoDisableTime.value
                else r.autoDisableTime == t.autoDisableTime)
            && (if u.acceptableCollateral.Some? then r.acceptableCollateral == u.acceptableCollateral.value
                else r.acceptableCollateral == t.acceptableCollateral)
            && (if u.acceptableBorrowers.Some? then r.acceptableBorrowers == u.acceptableBorrowers.value
                else r.acceptableBorrowers == t.acceptableBorrowers)
  {
  }

  /** "Total balance in the credit offer should be positive", after an update. */
  predicate LeavesFunds(o: Offer, u: OfferUpdate) {
    o.total + Or(u.delta, 0) > 0
  }

  /** The check is not redundant: an offer of 100 that is borrowed as a whole and never repaid
      is left with nothing, and then its terms cannot be changed any more. */
  lemma LostOfferCannotBeUpdated(terms: OfferTerms, u: OfferUpdate)
    requires u.delta.None?
    ensures var offer := Offer(1, 5, 100, 100, terms);
            var deal := Deal(2, 0, 1, 5, 100, 6, 1, 0, 11, NoAutoRepayment);
            var lent := Borrowed(map[0 := offer], deal);
            var lost := lent[0].(total := lent[0].total - deal.debt);
            && InStep(map[0 := offer], map[], map[])
            && InStep(lent, map[0 := deal], map[(0, 2) := 100])
            && InStep(map[0 := lost], map[], map[])
            && !LeavesFunds(lost, u)
  {
    var offer := Offer(1, 5, 100, 100, terms);
    var deal := Deal(2, 0, 1, 5, 100, 6, 1, 0, 11, NoAutoRepayment);
    AcceptKeeps(map[0 := offer], map[], map[], 0, deal);
    assert map[][0 := deal] == map[0 := deal] && map[][(0, 2) := 100] == map[(0, 2) := 100];
  }

  /** An enabled offer ends in the future, and not too late. */
  predicate EndsInTime(t: OfferTerms, now: nat) {
    t.enabled ==> now < t.autoDisableTime <= now + MAX_OFFER_SECONDS
  }

  datatype Acceptance = Acceptance(
    borrower: Account,
    offer: nat,
    amount: nat,
    collateralAsset: Asset,
    collateral: nat,
    maxFeeRate: nat,
    minDuration: nat,
    autoRepay: AutoRepayment)

  function RepayTime(now: nat, duration: nat): nat
    requires now <= MAX_TIME
  {
    if MAX_TIME - now >= duration then now + duration else MAX_TIME
  }

  /** Whether an offer, as it stands, accepts a borrower on the terms it asks for. */
  predicate Accepts(offers: Offers, summaries: Summaries, isAuthorized: (Account, Asset) -> bool, a: Acceptance,
                    now: nat)
    requires now <= MAX_TIME
    requires a.offer in offers ==> GoodTerms(offers[a.offer].terms)
  {
    && a.offer in offers
    && var o := offers[a.offer];
       && o.terms.enabled
       && o.current >= a.amount
       && o.terms.minDealAmount <= a.amount
       && o.terms.feeRate <= a.maxFeeRate
       && o.terms.maxDuration >= a.minDuration
       && a.collateralAsset in o.terms.acceptableCollateral
       && isAuthorized(a.borrower, o.asset) && isAuthorized(a.borrower, a.collateralAsset)
       && isAuthorized(o.owner, o.asset) && isAuthorized(o.owner, a.collateralAsset)
       && ConvertUp(a.amount, o.terms.acceptableCollateral[a.collateralAsset]) <= a.collateral
       && (o.terms.acceptableBorrowers != map[] ==>
             && a.borrower in o.terms.acceptableBorrowers
             && SummaryOf(summaries, a.offer, a.borrower) + a.amount <= o.terms.acceptableBorrowers[a.borrower])
       && now < RepayTime(now, o.terms.maxDuration)
  }

  /** What these checks come to: the collateral is worth the debt at the offer's price, and a listed
      borrower's debts on the offer stay within its limit. */
  lemma AcceptsMeans(offers: Offers, deals: Deals, summaries: Summaries, isAuthorized: (Account, Asset) -> bool,
                     a: Acceptance, now: nat)
    requires InStep(offers, deals, summaries) && now <= MAX_TIME
    requires a.offer in offers ==> GoodTerms(offers[a.offer].terms)
    ensures Accepts(offers, summaries, isAuthorized, a, now) <==>
      && a.offer in offers
      && var o, t := offers[a.offer], offers[a.offer].terms;
         && t.enabled && t.maxDuration > 0 && now < MAX_TIME
         && t.minDealAmount <= a.amount <= o.current
         && t.feeRate <= a.maxFeeRate && a.minDuration <= t.maxDuration
         && (forall who, asset {:trigger isAuthorized(who, asset)} ::
               who in {a.borrower, o.owner} && asset in {o.asset, a.collateralAsset} ==> isAuthorized(who, asset))
         && a.collateralAsset in t.acceptableCollateral
         && (var price := t.acceptableCollateral[a.collateralAsset];
             a.amount * price.quote <= a.collateral * price.base)
         && (t.acceptableBorrowers == map[]
             || (a.borrower in t.acceptableBorrowers
                 && OwedBy(deals, a.offer, a.borrower) + a.amount <= t.acceptableBorrowers[a.borrower]))
  {
    assert SummaryOf(summaries, a.offer, a.borrower) == OwedBy(deals, a.offer, a.borrower);
    if a.offer in offers && a.collateralAsset in offers[a.offer].terms.acceptableCollateral {
      ConvertUpGalois(a.amount, offers[a.offer].terms.acceptableCollateral[a.collateralAsset], a.collateral);
    }
  }

  function DealFor(o: Offer, a: Acceptance, now: nat): Deal
    requires now <= MAX_TIME
  {
    Deal(a.borrower, a.offer, o.owner, o.asset, a.amount, a.collateralAsset, a.collateral, o.terms.feeRate,
         RepayTime(now, o.terms.maxDuration), a.autoRepay)
  }

  class CreditBook {
    const ledger: Ledger
    const isAuthorized: (Account, Asset) -> bool

    var offers: Offers
    var deals: Deals
    var summaries: Summaries

    ghost predicate Valid()
      reads this, ledger`funds, ledger`journal
    {
      && ledger.Valid()
      && InStep(offers, deals, summaries)
      && (forall id {:trigger GoodTerms(offers[id].terms)} :: id in offers ==> GoodTerms(offers[id].terms))
    }

    /** All of an asset: in balances, in offers, and deposited as collateral. */
    ghost function Wealth(asset: Asset): int
      reads this`offers, this`deals, ledger`funds
    {
      Held(ledger.funds, asset) + Lendable(offers, asset) + Deposits(deals, asset)
    }

    constructor (ledger: Ledger, isAuthorized: (Account, Asset) -> bool)
      requires ledger.Valid()
      ensures Valid() && this.ledger == ledger && this.isAuthorized == isAuthorized
      ensures offers == map[] && deals == map[] && summaries == map[]
    {
      this.ledger := ledger;
      this.isAuthorized := isAuthorized;
      offers, deals, summaries := map[], map[], map[];
    }

    /** `credit_offer_create` */
    method CreateOffer(id: nat, owner: Account, asset: Asset, balance: nat, terms: OfferTerms, now: nat)
      returns (ok: bool)
      requires Valid() && id !in offers && balance > 0 && GoodTerms(terms)
      requires forall d :: d in deals ==> deals[d].offer != id
      modifies this`offers, ledger`funds, ledger`journal
      ensures Valid()
      ensures forall a :: Wealth(a) == old(Wealth(a))
      ensures ok <==>
        && (terms.enabled ==> now < terms.autoDisableTime <= now + MAX_OFFER_SECONDS)
        && isAuthorized(owner, asset)
        && balance <= old(AmountIn(ledger.funds, Balance(owner, asset)))
      ensures ok ==> offers == old(offers)[id := Offer(owner, asset, balance, balance, terms)]
      ensures ok ==> ledger.journal == old(ledger.journal) + [Posting(Balance(owner, asset), 0 - balance)]
      ensures !ok ==> offers == old(offers) && ledger.journal == old(ledger.journal)
    {
      if !EndsInTime(terms, now) || !isAuthorized(owner, asset) {
        return false;
      }
      ok := ledger.Adjust(Balance(owner, asset), 0 - balance);
      if ok {
        NothingOwed(deals, id);
        LendablePut(offers, id, Offer(owner, asset, balance, balance, terms));
        offers := offers[id := Offer(owner, asset, balance, balance, terms)];
      }
    }

    /** `credit_offer_delete` */
    method DeleteOffer(id: nat, owner: Account) returns (ok: bool)
      requires Valid()
      modifies this`offers, ledger`funds, ledger`journal
      ensures Valid()
      ensures forall a :: Wealth(a) == old(Wealth(a))
      ensures ok <==>
        id in old(offers) && old(offers)[id].owner == owner && forall d :: d in deals ==> deals[d].offer != id
      ensures ok ==> offers == old(offers) - {id}
      ensures ok ==>
        ledger.journal
          == old(ledger.journal) + [Posting(Balance(owner, old(offers)[id].asset), old(offers)[id].current)]
      ensures !ok ==> offers == old(offers) && ledger.journal == old(ledger.journal)
    {
      if id !in offers || offers[id].owner != owner {
        return false;
      }
      DeletableIffNoDeals(offers, deals, summaries, id);
      if offers[id].total != offers[id].current {
        return false;
      }
      ledger.Credit(Balance(owner, offers[id].asset), offers[id].current);
      LendableRemove(offers, id);
      offers := offers - {id};
      ok := true;
    }

    /** `credit_offer_update`. Of the defensive checks at the end only one is not redundant: an
        offer whose funds have all been lost to expired deals cannot be changed in any way
        until its owner adds funds in the same operation. */
    method UpdateOffer(id: nat, owner: Account, u: OfferUpdate, now: nat) returns (ok: bool)
      requires Valid() && u.delta != Some(0)
      requires id in offers ==> GoodTerms(NewTerms(offers[id].terms, u))
      modifies this`offers, ledger`funds, ledger`journal
      ensures Valid()
      ensures forall a :: Wealth(a) == old(Wealth(a))
      ensures ok <==>
        && id in old(offers) && old(offers)[id].owner == owner
        && var o, delta := old(offers)[id], Or(u.delta, 0);
           && (delta > 0 ==>
                 isAuthorized(owner, o.asset) && delta <= old(AmountIn(ledger.funds, Balance(owner, o.asset))))
           && o.current + delta >= 0
           && o.total + delta > 0
           && (Or(u.enabled, o.terms.enabled) ==>
                 now < Or(u.autoDisableTime, o.terms.autoDisableTime) <= now + MAX_OFFER_SECONDS)
      ensures ok ==>
        var o, delta := old(offers)[id], Or(u.delta, 0);
        && o.total + delta >= o.current + delta >= 0
        && offers == old(offers)[id := Offer(owner, o.asset, o.total + delta, o.current + delta, NewTerms(o.terms, u))]
        && ledger.journal == old(ledger.journal) + if u.delta.Some? then [Posting(Balance(owner, o.asset), 0 - delta)]
                                                     else []
      ensures !ok ==> offers == old(offers) && ledger.journal == old(ledger.journal)
    {
      if id !in offers || offers[id].owner != owner {
        return false;
      }
      var o := offers[id];
      CurrentAtMostTotal(offers, deals, summaries, id);
      if u.delta.Some? {
        if u.delta.value > 0 {
          if !isAuthorized(owner, o.asset) {
            return false;
          }
        } else if o.total <= 0 - u.delta.value || o.current < 0 - u.delta.value {
          return false;
        }
      }
      if !EndsInTime(NewTerms(o.terms, u), now) {
        return false;
      }
      if Or(u.delta, 0) > AmountIn(ledger.funds, Balance(owner, o.asset)) {
        return false;
      }
      if !LeavesFunds(o, u) {
        return false;
      }
      if u.delta.Some? {
        var adjusted := ledger.Adjust(Balance(owner, o.asset), 0 - u.delta.value);
      }
      ReplaceOffer(id, Or(u.delta, 0), NewTerms(o.terms, u));
      ok := true;
    }

    /** The change of the offer alone. */
    method ReplaceOffer(id: nat, delta: int, terms: OfferTerms)
      requires Valid() && id in offers && offers[id].current + delta >= 0 && offers[id].total + delta > 0
      requires GoodTerms(terms)
      modifies this`offers
      ensures Valid()
      ensures var o := old(offers)[id];
              offers == old(offers)[id := Offer(o.owner, o.asset, o.total + delta, o.current + delta, terms)]
      ensures forall a :: Wealth(a) == old(Wealth(a)) + if a == old(offers)[id].asset then delta else 0
    {
      var o := offers[id];
      var now := Offer(o.owner, o.asset, o.total + delta, o.current + delta, terms);
      LendablePut(offers, id, now);
      offers := offers[id := now];
    }

    // ----- deals -----

    /** The check that a deal ends in the future fails exactly when the offer's maximum duration is zero
        or time is at its end; an offer may have such a duration, and then nobody can borrow from it. */
    lemma BorrowableIffItLasts(offer: nat, a: Acceptance, now: nat)
      requires now <= MAX_TIME && offer in offers && a.offer == offer && GoodTerms(offers[offer].terms)
      ensures var t := offers[offer].terms;
              && RepayTime(now, t.maxDuration) <= now + MAX_DEAL_SECONDS
              && (now < RepayTime(now, t.maxDuration) <==> t.maxDuration > 0 && now < MAX_TIME)
              && (t.maxDuration == 0 ==> !MayAccept(a, now))
    {
    }

    /** The checks of `credit_offer_accept`, besides the balance. */
    predicate MayAccept(a: Acceptance, now: nat)
      requires now <= MAX_TIME
      requires a.offer in offers ==> GoodTerms(offers[a.offer].terms)
      reads this`offers, this`summaries
    {
      Accepts(offers, summaries, isAuthorized, a, now)
    }

    /** `credit_offer_accept`. The defensive checks of the balances, and that the deal does not
        end too late, are redundant; that it ends in the future is not, as offers may have a
        maximum duration of zero. */
    method AcceptOffer(id: nat, a: Acceptance, now: nat) returns (ok: bool)
      requires Valid() && id !in deals && a.amount > 0 && a.collateral > 0 && now <= MAX_TIME
      modifies this`offers, this`deals, this`summaries, ledger`funds, ledger`journal
      ensures Valid()
      ensures forall asset :: Wealth(asset) == old(Wealth(asset))
      ensures ok <==>
        old(MayAccept(a, now)) && a.collateral <= old(AmountIn(ledger.funds, Balance(a.borrower, a.collateralAsset)))
      ensures ok ==>
        var o, t := old(offers)[a.offer], old(offers)[a.offer].terms;
        var ends := if now + t.maxDuration <= MAX_TIME then now + t.maxDuration else MAX_TIME;
        var d := Deal(a.borrower, a.offer, o.owner, o.asset, a.amount, a.collateralAsset, a.collateral, t.feeRate,
                      ends, a.autoRepay);
        && now < ends <= now + MAX_DEAL_SECONDS
        && offers == Borrowed(old(offers), d) && deals == old(deals)[id := d]
        && summaries
          == old(summaries)[(a.offer, a.borrower) := SummaryOf(old(summaries), a.offer, a.borrower) + a.amount]
        && ledger.journal == old(ledger.journal)
             + [Posting(Balance(a.borrower, a.collateralAsset), 0 - a.collateral),
                Posting(Balance(a.borrower, d.debtAsset), a.amount)]
      ensures ok ==>
        var t := old(offers)[a.offer].terms;
        && a.collateralAsset in t.acceptableCollateral
        && (var price := t.acceptableCollateral[a.collateralAsset];
            a.amount * price.quote <= a.collateral * price.base)
        && (t.acceptableBorrowers != map[] ==>
              a.borrower in t.acceptableBorrowers
              && OwedBy(deals, a.offer, a.borrower) <= t.acceptableBorrowers[a.borrower])
      ensures !ok ==>
        && offers == old(offers)
        && deals == old(deals)
        && summaries == old(summaries)
        && ledger.journal == old(ledger.journal)
    {
      AcceptsMeans(offers, deals, summaries, isAuthorized, a, now);
      if !MayAccept(a, now) {
        return false;
      }
      if a.collateral > AmountIn(ledger.funds, Balance(a.borrower, a.collateralAsset)) {
        return false;
      }
      MakeDeal(id, DealFor(offers[a.offer], a, now));
      ok := true;
    }

    /** The borrower deposits collateral and gets what it borrows. */
    method MakeDeal(id: nat, d: Deal)
      requires Valid() && id !in deals && DealMatches(d, offers) && d.debt <= offers[d.offer].current
      requires d.collateral <= AmountIn(ledger.funds, Balance(d.borrower, d.collateralAsset))
      modifies this`offers, this`deals, this`summaries, ledger`funds, ledger`journal
      ensures Valid()
      ensures forall a :: Wealth(a) == old(Wealth(a))
      ensures offers == Borrowed(old(offers), d) && deals == old(deals)[id := d]
      ensures summaries
                == old(summaries)[(d.offer, d.borrower) := SummaryOf(old(summaries), d.offer, d.borrower) + d.debt]
      ensures ledger.journal == old(ledger.journal)
                + [Posting(Balance(d.borrower, d.collateralAsset), 0 - d.collateral),
                   Posting(Balance(d.borrower, d.debtAsset), d.debt)]
    {
      Exchange(d.borrower, d.collateralAsset, d.collateral, d.debtAsset, d.debt);
      RecordDeal(id, d);
    }

    /** An account gives one asset and gets another. */
    method Exchange(who: Account, gives: Asset, given: nat, gets: Asset, got: nat)
      requires ledger.Valid() && given <= AmountIn(ledger.funds, Balance(who, gives))
      modifies ledger`funds, ledger`journal
      ensures ledger.Valid()
      ensures ledger.journal
                == old(ledger.journal) + [Posting(Balance(who, gives), 0 - given), Posting(Balance(who, gets), got)]
      ensures forall a ::
        Held(ledger.funds, a)
          == old(Held(ledger.funds, a)) + (if a == gets then got else 0) - (if a == gives then given else 0)
    {
      var ok := ledger.Adjust(Balance(who, gives), 0 - given);
      ledger.Credit(Balance(who, gets), got);
    }

    method RecordDeal(id: nat, d: Deal)
      requires Valid() && id !in deals && DealMatches(d, offers) && d.debt <= offers[d.offer].current
      modifies this`offers, this`deals, this`summaries
      ensures Valid()
      ensures offers == Borrowed(old(offers), d) && deals == old(deals)[id := d]
      ensures summaries
                == old(summaries)[(d.offer, d.borrower) := SummaryOf(old(summaries), d.offer, d.borrower) + d.debt]
      ensures forall a ::
        Wealth(a)
          == old(Wealth(a)) + (if a == d.collateralAsset then d.collateral else 0)
            - (if a == d.debtAsset then d.debt else 0)
    {
      AcceptKeeps(offers, deals, summaries, id, d);
      LendablePut(offers, d.offer, Borrowed(offers, d)[d.offer]);
      DepositsPut(deals, id, d);
      offers := Borrowed(offers, d);
      deals := deals[id := d];
      var key := (d.offer, d.borrower);
      if key in summaries {
        summaries := summaries[key := summaries[key] + d.debt];
      } else {
        summaries := summaries[key := d.debt];
      }
    }

    /** `credit_deal_repay` */
    method RepayDeal(id: nat, account: Account, amount: nat, creditFee: nat) returns (ok: bool)
      requires Valid() && amount > 0
      modifies this`offers, this`deals, this`summaries, ledger`funds, ledger`journal
      ensures Valid()
      ensures forall a :: Wealth(a) == old(Wealth(a))
      ensures ok <==>
        && id in old(deals)
        && var d := old(deals)[id];
           && d.borrower == account && amount <= d.debt && creditFee >= RequiredFee(amount, d.feeRate)
           && isAuthorized(account, d.debtAsset) && isAuthorized(d.offerOwner, d.debtAsset)
           && amount + creditFee <= old(AmountIn(ledger.funds, Balance(account, d.debtAsset)))
      ensures ok ==>
        var d, o := old(deals)[id], old(offers)[old(deals)[id].offer];
        var released := Released(d.debt, d.collateral, amount);
        && released <= d.collateral && (d.offer, account) in old(summaries)
        && amount <= old(summaries)[(d.offer, account)]
        && offers == old(offers)[d.offer := o.(total := o.total + creditFee, current := o.current + amount + creditFee)]
        && deals == DealLess(old(deals), id, amount, released)
        && summaries == SummaryLess(old(summaries), (d.offer, account), amount)
        && ledger.journal == old(ledger.journal)
             + [Posting(Balance(account, d.debtAsset), 0 - (amount + creditFee)),
                Posting(Balance(account, d.collateralAsset), released)]
      ensures !ok ==>
        && offers == old(offers)
        && deals == old(deals)
        && summaries == old(summaries)
        && ledger.journal == old(ledger.journal)
      ensures !ok ==> ledger.funds == old(ledger.funds)
    {
      if id !in deals || deals[id].borrower != account || deals[id].debt < amount {
        return false;
      }
      var d := deals[id];
      if creditFee < RequiredFee(amount, d.feeRate) || !isAuthorized(account, d.debtAsset)
          || !isAuthorized(d.offerOwner, d.debtAsset) {
        return false;
      }
      if amount + creditFee > AmountIn(ledger.funds, Balance(account, d.debtAsset)) {
        return false;
      }
      ok := true;
      var released := ReleaseFor(d, amount);
      ExchangeForDebt(id, amount, released, creditFee);
    }

    /** The borrower pays debt and fee, and gets collateral back. */
    method ExchangeForDebt(id: nat, amount: nat, released: nat, creditFee: nat)
      requires Valid() && id in deals && amount <= deals[id].debt && released <= deals[id].collateral
      requires if amount == deals[id].debt then released == deals[id].collateral else released < deals[id].collateral
      requires amount + creditFee <= AmountIn(ledger.funds, Balance(deals[id].borrower, deals[id].debtAsset))
      modifies this`offers, this`deals, this`summaries, ledger`funds, ledger`journal
      ensures Valid()
      ensures forall a :: Wealth(a) == old(Wealth(a))
      ensures var d, o := old(deals)[id], old(offers)[old(deals)[id].offer];
              && (d.offer, d.borrower) in old(summaries) && amount <= old(summaries)[(d.offer, d.borrower)]
              && offers
                == old(offers)[d.offer := o.(total := o.total + creditFee, current := o.current + amount + creditFee)]
              && deals == DealLess(old(deals), id, amount, released)
              && summaries == SummaryLess(old(summaries), (d.offer, d.borrower), amount)
              && ledger.journal == old(ledger.journal)
                   + [Posting(Balance(d.borrower, d.debtAsset), 0 - (amount + creditFee)),
                      Posting(Balance(d.borrower, d.collateralAsset), released)]
    {
      var d := deals[id];
      Exchange(d.borrower, d.debtAsset, amount + creditFee, d.collateralAsset, released);
      LessenDebt(id, amount, released, amount + creditFee);
    }

    method ReleaseFor(d: Deal, amount: nat) returns (released: nat)
      requires d.debt > 0 && d.collateral > 0 && amount <= d.debt
      ensures released == Released(d.debt, d.collateral, amount)
      ensures if amount == d.debt then released == d.collateral else released < d.collateral
    {
      released := d.collateral;
      if amount < d.debt {
        PartialRelease(d.debt, d.collateral, amount);
        released := amount * d.collateral / d.debt;
        assert released < d.collateral;  // "Internal error" never happens
      }
    }

    method LessenSummary(key: (nat, Account), amount: nat)
      requires key in summaries && amount <= summaries[key]
      modifies this`summaries
      ensures summaries == SummaryLess(old(summaries), key, amount)
    {
      if summaries[key] == amount {
        summaries := summaries - {key};
      } else {
        summaries := summaries[key := summaries[key] - amount];
      }
    }

    method LessenDeal(id: nat, amount: nat, released: nat)
      requires id in deals && amount <= deals[id].debt && released <= deals[id].collateral
      modifies this`deals
      ensures deals == DealLess(old(deals), id, amount, released)
    {
      var d := deals[id];
      if d.debt == amount {
        deals := deals - {id};
      } else {
        deals := deals[id := d.(debt := d.debt - amount, collateral := d.collateral - released)];
      }
    }

    /** Part or all of the debt of a deal goes away, in all three records, and something may
        come back into the offer for it. */
    method LessenDebt(id: nat, amount: nat, released: nat, credit: nat)
      requires Valid() && id in deals
      requires amount <= deals[id].debt && released <= deals[id].collateral
      requires if amount == deals[id].debt then released == deals[id].collateral else released < deals[id].collateral
      modifies this`offers, this`deals, this`summaries
      ensures Valid()
      ensures var d, o := old(deals)[id], old(offers)[old(deals)[id].offer];
              && amount <= o.total
              && (d.offer, d.borrower) in old(summaries) && amount <= old(summaries)[(d.offer, d.borrower)]
              && offers == old(offers)[d.offer := o.(total := o.total - amount + credit, current := o.current + credit)]
              && deals == DealLess(old(deals), id, amount, released)
              && summaries == SummaryLess(old(summaries), (d.offer, d.borrower), amount)
      ensures forall a :: Wealth(a) == old(Wealth(a))
                + (if a == old(deals)[id].debtAsset then credit else 0)
                - (if a == old(deals)[id].collateralAsset then released else 0)
    {
      var d := deals[id];
      var o := offers[d.offer];
      DebtBound(deals, id);
      var offer := o.(total := o.total - amount + credit, current := o.current + credit);
      DebtGoes(offers, deals, summaries, id, amount, released, offer);
      LendablePut(offers, d.offer, offer);
      DepositsLess(deals, id, amount, released);
      offers := offers[d.offer := offer];
      LessenSummary((d.offer, d.borrower), amount);
      LessenDeal(id, amount, released);
    }

    /** `credit_deal_update` */
    method UpdateDeal(id: nat, account: Account, autoRepay: AutoRepayment) returns (ok: bool)
      requires Valid()
      modifies this`deals
      ensures Valid()
      ensures forall a :: Wealth(a) == old(Wealth(a))
      ensures ok <==> id in old(deals) && old(deals)[id].borrower == account && old(deals)[id].autoRepay != autoRepay
      ensures deals == if ok then old(deals)[id := old(deals)[id].(autoRepay := autoRepay)] else old(deals)
    {
      ok := id in deals && deals[id].borrower == account && deals[id].autoRepay != autoRepay;
      if ok {
        DealKeeps(offers, deals, summaries, id, autoRepay);
        DepositsPut(deals, id, deals[id].(autoRepay := autoRepay));
        deals := deals[id := deals[id].(autoRepay := autoRepay)];
      }
    }
  }

  lemma NothingOwed(deals: Deals, offer: nat)
    requires forall id :: id in deals ==> deals[id].offer != offer
    ensures Owed(deals, offer) == 0
  {
    SumZero(deals, (i: nat, x: Deal) => if x.offer == offer then x.debt else 0);
  }
}
