/** What happens to credit offers and deals as time passes, and whole runs of them. */
module CreditExpiry {
  import opened Options
  import opened Rounding
  import opened Prices
  import opened Sums
  import opened Ledgers
  import opened LimitMatching
  import opened CreditDeals
  import opened CreditOffers

  /** An offer whose time has come is not enabled any more. */
  function DisabledAt(o: Offer, now: nat): Offer {
    if o.terms.enabled && o.terms.autoDisableTime <= now then o.(terms := o.terms.(enabled := false)) else o
  }

  method DisableOffer(book: CreditBook, id: nat, now: nat)
    requires book.Valid() && id in book.offers
    modifies book`offers
    ensures book.Valid()
    ensures forall a :: book.Wealth(a) == old(book.Wealth(a))
    ensures book.offers == old(book.offers)[id := DisabledAt(old(book.offers)[id], now)]
  {
    var o := DisabledAt(book.offers[id], now);
    assert GoodTerms(book.offers[id].terms);
    OfferKeeps(book.offers, book.deals, book.summaries, id, o);
    LendablePut(book.offers, id, o);
    book.offers := book.offers[id := o];
  }

  method DisableOffers(book: CreditBook, now: nat)
    requires book.Valid()
    modifies book`offers
    ensures book.Valid()
    ensures forall a :: book.Wealth(a) == old(book.Wealth(a))
    ensures book.offers.Keys == old(book.offers).Keys
    ensures forall id :: id in book.offers ==> book.offers[id] == DisabledAt(old(book.offers)[id], now)
  {
    var left := book.offers.Keys;
    while left != {}
      invariant left <= book.offers.Keys == old(book.offers).Keys
      invariant book.Valid()
      invariant forall a :: book.Wealth(a) == old(book.Wealth(a))
      invariant forall id :: id in book.offers ==>
        book.offers[id] == if id in left then old(book.offers)[id] else DisabledAt(old(book.offers)[id], now)
      decreases |left|
    {
      var id :| id in left;
      left := left - {id};
      DisableOffer(book, id, now);
    }
  }

  /** A deal that was not repaid ends: the lender keeps the collateral instead of the debt. */
  method ExpireDeal(book: CreditBook, id: nat)
    requires book.Valid() && id in book.deals
    modifies book`offers, book`deals, book`summaries, book.ledger`funds, book.ledger`journal
    ensures book.Valid()
    ensures forall a :: book.Wealth(a) == old(book.Wealth(a))
    ensures book.deals == old(book.deals) - {id}
    ensures var d, o := old(book.deals)[id], old(book.offers)[old(book.deals)[id].offer];
            && d.debt <= o.total
            && book.offers == old(book.offers)[d.offer := o.(total := o.total - d.debt)]
            && (d.offer, d.borrower) in old(book.summaries) && d.debt <= old(book.summaries)[(d.offer, d.borrower)]
            && book.summaries == SummaryLess(old(book.summaries), (d.offer, d.borrower), d.debt)
            && book.ledger.journal
               == old(book.ledger.journal) + [Posting(Balance(d.offerOwner, d.collateralAsset), d.collateral)]
  {
    var d := book.deals[id];
    book.LessenDebt(id, d.debt, d.collateral, 0);
    book.ledger.Credit(Balance(d.offerOwner, d.collateralAsset), d.collateral);
  }

  /** How much of its debt a deal that is due repays by itself. */
  function AutoRepaid(d: Deal, balance: nat, authorized: bool): (r: nat)
    requires d.debt > 0 && d.collateral > 0
    ensures r <= d.debt
  {
    if d.autoRepay == NoAutoRepayment || !authorized then
      0
    else if balance >= d.debt + RequiredFee(d.debt, d.feeRate) then
      d.debt
    else if d.autoRepay == OnlyFullRepayment then
      0
    else
      AutoRepayIsAffordable(balance, d.feeRate, d.debt, d.collateral);
      AutoRepay(balance, d.feeRate, d.debt, d.collateral)
  }

  /** A deal repays the whole of its debt when that is authorized and there is enough for debt and fee.
      With less nothing is repaid, unless a part may be: then as much collateral comes back as any
      amount could release that can be paid for together with its fee, for the least such amount. */
  lemma AutoRepaidIsBest(d: Deal, balance: nat, authorized: bool, other: nat)
    requires d.debt > 0 && d.collateral > 0
    ensures var r := AutoRepaid(d, balance, authorized);
            if d.autoRepay == NoAutoRepayment || !authorized then
              r == 0
            else if d.debt + RequiredFee(d.debt, d.feeRate) <= balance then
              r == d.debt
            else if d.autoRepay == OnlyFullRepayment then
              r == 0
            else
              && r + RequiredFee(r, d.feeRate) <= balance && r < d.debt
              && (other + RequiredFee(other, d.feeRate) <= balance ==>
                    Released(d.debt, d.collateral, other) <= Released(d.debt, d.collateral, r))
              && (other < r ==> Released(d.debt, d.collateral, other) < Released(d.debt, d.collateral, r))
  {
    if balance < d.debt + RequiredFee(d.debt, d.feeRate) {
      AutoRepayIsAffordable(balance, d.feeRate, d.debt, d.collateral);
      AffordableWithFee(balance, d.feeRate, other);
      if other + RequiredFee(other, d.feeRate) <= balance {
        var most := AffordableDebt(balance, d.feeRate);
        MulNonNeg(other, d.collateral);
        MulNonNeg(most, d.collateral);
        MulLe(other, most, d.collateral);
        FloorMonotone(other * d.collateral, most * d.collateral, d.debt);
      }
    }
  }

  /** What a borrower pays, and gets back, when so much of a debt is repaid; and what the lender gets
      of the collateral when the rest of it is not. */
  function RepaymentPostings(d: Deal, repaid: nat): seq<Posting>
    requires d.debt > 0
  {
    if repaid == 0 then
      []
    else
      [ Posting(Balance(d.borrower, d.debtAsset), 0 - (repaid + RequiredFee(repaid, d.feeRate))),
        Posting(Balance(d.borrower, d.collateralAsset), Released(d.debt, d.collateral, repaid)) ]
  }

  function ExpiryPostings(d: Deal, repaid: nat): seq<Posting>
    requires d.debt > 0
  {
    if repaid == d.debt then
      []
    else
      [ Posting(Balance(d.offerOwner, d.collateralAsset), d.collateral - Released(d.debt, d.collateral, repaid)) ]
  }

  /** The summaries after so much of a debt is gone. */
  function SummariesLess(summaries: Summaries, d: Deal, amount: nat): Summaries
    requires amount > 0 ==>
      (d.offer, d.borrower) in summaries && amount <= summaries[(d.offer, d.borrower)]
  {
    if amount == 0 then summaries else SummaryLess(summaries, (d.offer, d.borrower), amount)
  }

  /** The automatic repayment of one deal. A partial one, if it is for anything at all, never
      fails for lack of balance. */
  method RepayAutomatically(book: CreditBook, id: nat) returns (repaid: nat, fee: nat)
    requires book.Valid() && id in book.deals
    modifies book`offers, book`deals, book`summaries, book.ledger`funds, book.ledger`journal
    ensures book.Valid()
    ensures forall a :: book.Wealth(a) == old(book.Wealth(a))
    ensures var d := old(book.deals)[id];
            var o := old(book.offers)[d.offer];
            && repaid == AutoRepaid(d, old(AmountIn(book.ledger.funds, Balance(d.borrower, d.debtAsset))),
                                    book.isAuthorized(d.borrower, d.debtAsset)
                                        && book.isAuthorized(d.offerOwner, d.debtAsset))
            && fee == RequiredFee(repaid, d.feeRate)
            && book.offers
              == old(book.offers)[d.offer := o.(total := o.total + fee, current := o.current + repaid + fee)]
            && (repaid == d.debt ==> book.deals == old(book.deals) - {id})
            && (repaid < d.debt ==>
                  var released := Released(d.debt, d.collateral, repaid);
                  released < d.collateral
                  && book.deals
                    == old(book.deals)[id := d.(debt := d.debt - repaid, collateral := d.collateral - released)])
            && book.ledger.journal == old(book.ledger.journal) + RepaymentPostings(d, repaid)
            && (repaid > 0 ==> (d.offer, d.borrower) in old(book.summaries)
                               && repaid <= old(book.summaries)[(d.offer, d.borrower)])
            && book.summaries == SummariesLess(old(book.summaries), d, repaid)
  {
    var d := book.deals[id];
    repaid, fee := 0, 0;
    PartialRelease(d.debt, d.collateral, 0);
    if d.autoRepay == NoAutoRepayment {
      return;
    }
    var balance := AmountIn(book.ledger.funds, Balance(d.borrower, d.debtAsset));
    var amount := AutoAmount(d, balance);
    if amount == 0 {
      return;
    }
    var ok := book.RepayDeal(id, d.borrower, amount, RequiredFee(amount, d.feeRate));
    if ok {
      repaid, fee := amount, RequiredFee(amount, d.feeRate);
      if repaid < d.debt {
        PartialRelease(d.debt, d.collateral, repaid);
      }
    }
  }

  /** The amount the automatic repayment asks for. */
  method AutoAmount(d: Deal, balance: nat) returns (amount: nat)
    requires d.debt > 0 && d.collateral > 0 && d.autoRepay != NoAutoRepayment
    ensures amount <= d.debt
    ensures var affordable := amount + RequiredFee(amount, d.feeRate) <= balance;
            (if affordable then amount else 0) == AutoRepaid(d, balance, true)
  {
    var requiredFee := RequiredFee(d.debt, d.feeRate);
    if d.autoRepay == OnlyFullRepayment || balance >= d.debt + requiredFee {
      amount := d.debt;
    } else {
      AutoRepayIsAffordable(balance, d.feeRate, d.debt, d.collateral);
      var debtToRepay := balance * FEE_RATE_DENOM / (FEE_RATE_DENOM + d.feeRate);
      MulNonNeg(debtToRepay, d.collateral);
      var collateralToRelease := Floor(debtToRepay * d.collateral, d.debt);
      MulNonNeg(collateralToRelease, d.debt);
      amount := Ceil(collateralToRelease * d.debt, d.collateral);
    }
  }

  lemma PutTwice<K, V>(m: map<K, V>, k: K, x: V, y: V)
    ensures m[k := x][k := y] == m[k := y]
    ensures m[k := x] - {k} == m - {k}
  {
  }

  /** One deal that is due: it is repaid as far as it repays itself, and what is left of it
      expires. */
  method ProcessDeal(book: CreditBook, id: nat) returns (repaid: nat, fee: nat)
    requires book.Valid() && id in book.deals
    modifies book`offers, book`deals, book`summaries, book.ledger`funds, book.ledger`journal
    ensures book.Valid()
    ensures forall a :: book.Wealth(a) == old(book.Wealth(a))
    ensures book.deals == old(book.deals) - {id}
    ensures var d := old(book.deals)[id];
            var o := old(book.offers)[d.offer];
            && repaid == AutoRepaid(d, old(AmountIn(book.ledger.funds, Balance(d.borrower, d.debtAsset))),
                                    book.isAuthorized(d.borrower, d.debtAsset)
                                        && book.isAuthorized(d.offerOwner, d.debtAsset))
            && fee == RequiredFee(repaid, d.feeRate)
            && d.debt - repaid <= o.total + fee
            && book.offers
              == old(book.offers)[d.offer := o.(total := o.total + fee - (d.debt - repaid),
                                                current := o.current + repaid + fee)]
            && book.ledger.journal
               == old(book.ledger.journal) + RepaymentPostings(d, repaid) + ExpiryPostings(d, repaid)
            && (d.offer, d.borrower) in old(book.summaries) && d.debt <= old(book.summaries)[(d.offer, d.borrower)]
            && book.summaries == SummaryLess(old(book.summaries), (d.offer, d.borrower), d.debt)
  {
    ghost var d := book.deals[id];
    KeyOfDeal(book, id);
    repaid, fee := RepayAutomatically(book, id);
    if id in book.deals {
      ghost var was, between := old(book.offers), book.offers;
      ExpireDeal(book, id);
      PutTwice(was, d.offer, between[d.offer], book.offers[d.offer]);
      LessTwice(old(book.summaries), (d.offer, d.borrower), repaid, d.debt - repaid);
    }
  }

  lemma KeyOfDeal(book: CreditBook, id: nat)
    requires book.Valid() && id in book.deals
    ensures var key := (book.deals[id].offer, book.deals[id].borrower);
            key in book.summaries && book.deals[id].debt <= book.summaries[key]
  {
    var d := book.deals[id];
    var o := book.offers[d.offer];
    DebtGoes(book.offers, book.deals, book.summaries, id, 0, 0, o);
    DebtGoes(book.offers, book.deals, book.summaries, id, d.debt, d.collateral, o.(current := o.current + d.debt));
  }

  lemma LessTwice(summaries: Summaries, key: (nat, Account), a: nat, b: nat)
    requires key in summaries && a + b <= summaries[key] && b > 0
    ensures var once := if a == 0 then summaries else SummaryLess(summaries, key, a);
            key in once && b <= once[key] && SummaryLess(once, key, b) == SummaryLess(summaries, key, a + b)
  {
  }

  /** Offers, deals and summaries, and all that was posted: a balance is what was posted to it. */
  datatype Books = Books(offers: Offers, deals: Deals, summaries: Summaries, journal: seq<Posting>)

  ghost function BooksOf(book: CreditBook): Books
    reads book, book.ledger`journal
  {
    Books(book.offers, book.deals, book.summaries, book.ledger.journal)
  }

  ghost function BalanceIn(b: Books, who: Account, asset: Asset): int {
    PostedTo(b.journal, Balance(who, asset))
  }

  /** One deal that is due comes to its end, as `ProcessDeal` says. */
  ghost predicate Ends(was: Books, b: Books, id: nat, isAuthorized: (Account, Asset) -> bool) {
    && id in was.deals
    && var d := was.deals[id];
       var balance := BalanceIn(was, d.borrower, d.debtAsset);
       && d.offer in was.offers && d.debt > 0 && d.collateral > 0 && balance >= 0
       && (d.offer, d.borrower) in was.summaries && d.debt <= was.summaries[(d.offer, d.borrower)]
       && var o := was.offers[d.offer];
          var repaid := AutoRepaid(d, balance,
                                   isAuthorized(d.borrower, d.debtAsset) && isAuthorized(d.offerOwner, d.debtAsset));
          var fee := RequiredFee(repaid, d.feeRate);
          && d.debt - repaid <= o.total + fee
          && b.offers
            == was.offers[d.offer := o.(total := o.total + fee - (d.debt - repaid),
                                        current := o.current + repaid + fee)]
          && b.deals == was.deals - {id}
          && b.summaries == SummaryLess(was.summaries, (d.offer, d.borrower), d.debt)
          && b.journal == was.journal + RepaymentPostings(d, repaid) + ExpiryPostings(d, repaid)
  }

  /** The order in which deals are processed: by their time, and then by id. */
  ghost predicate IsFirst(deals: Deals, id: nat) {
    && id in deals
    && forall i :: i in deals ==>
         || deals[id].latestRepayTime < deals[i].latestRepayTime
         || (deals[id].latestRepayTime == deals[i].latestRepayTime && id <= i)
  }

  /** The first deal comes to its end, being due. */
  ghost predicate EndsNext(was: Books, b: Books, now: nat, isAuthorized: (Account, Asset) -> bool) {
    exists id :: IsFirst(was.deals, id) && was.deals[id].latestRepayTime <= now && Ends(was, b, id, isAuthorized)
  }

  ghost predicate IsRun(run: seq<Books>, now: nat, isAuthorized: (Account, Asset) -> bool) {
    && run != []
    && forall i {:trigger EndsNext(run[i], run[i + 1], now, isAuthorized)} ::
         0 <= i < |run| - 1 ==> EndsNext(run[i], run[i + 1], now, isAuthorized)
  }

  /** All deals that are due come to their ends, in their order. */
  ghost predicate AllEnd(was: Books, b: Books, now: nat, isAuthorized: (Account, Asset) -> bool) {
    && NoneDue(b.deals, now)
    && exists run :: IsRun(run, now, isAuthorized) && run[0] == was && run[|run| - 1] == b
  }

  /** The books with the offers disabled whose time has come. */
  ghost function DisabledIn(b: Books, now: nat): Books {
    b.(offers := map id | id in b.offers :: DisabledAt(b.offers[id], now))
  }

  /** The deal that is due first, if any is due. */
  method FirstDue(deals: Deals, now: nat) returns (found: bool, id: nat)
    ensures found ==> IsFirst(deals, id) && deals[id].latestRepayTime <= now
    ensures !found ==> NoneDue(deals, now)
  {
    found, id := false, 0;
    var left := deals.Keys;
    while left != {}
      invariant left <= deals.Keys
      invariant found ==> id in deals && deals[id].latestRepayTime <= now
      invariant forall i :: i in deals && i !in left ==>
        if found then deals[id].latestRepayTime < deals[i].latestRepayTime
            || (deals[id].latestRepayTime == deals[i].latestRepayTime && id <= i)
        else deals[i].latestRepayTime > now
      decreases |left|
    {
      var i :| i in left;
      left := left - {i};
      if deals[i].latestRepayTime <= now
         && (!found || deals[i].latestRepayTime < deals[id].latestRepayTime
             || (deals[i].latestRepayTime == deals[id].latestRepayTime && i <= id)) {
        found, id := true, i;
      }
    }
  }

  /** `update_credit_offers_and_deals`: afterwards no offer is enabled past its time, no deal is
      past due, and no deal that was not due has changed. */
  method UpdateOffersAndDeals(book: CreditBook, now: nat)
    requires book.Valid()
    modifies book`offers, book`deals, book`summaries, book.ledger`funds, book.ledger`journal
    ensures book.Valid()
    ensures forall a :: book.Wealth(a) == old(book.Wealth(a))
    ensures StillOpen(old(book.deals), book.deals, now) && NoneDue(book.deals, now)
    ensures book.offers.Keys == old(book.offers).Keys
    ensures forall id ::
      id in book.offers && book.offers[id].terms.enabled ==> book.offers[id].terms.autoDisableTime > now
    ensures forall id ::
      id in book.offers && old(book.offers)[id].terms.autoDisableTime > now ==>
        book.offers[id].terms == old(book.offers)[id].terms
    ensures AllEnd(old(DisabledIn(BooksOf(book), now)), BooksOf(book), now, book.isAuthorized)
  {
    ghost var disabled := DisabledIn(BooksOf(book), now);
    DisableOffers(book, now);
    assert BooksOf(book) == disabled;
    ghost var run := ProcessDue(book, now);
    assert forall id :: id in book.offers ==> SameTermsAt(disabled.offers, book.offers, id);
    RunEnds(run, BooksOf(book), now, book.isAuthorized);
  }

  /** Processes deals until none is due, the earliest first. */
  method ProcessDue(book: CreditBook, now: nat) returns (ghost run: seq<Books>)
    requires book.Valid()
    modifies book`offers, book`deals, book`summaries, book.ledger`funds, book.ledger`journal
    ensures book.Valid()
    ensures forall a :: book.Wealth(a) == old(book.Wealth(a))
    ensures RunTo(run, BooksOf(book), now, book.isAuthorized) && run[0] == old(BooksOf(book))
    ensures NoneDue(book.deals, now)
  {
    run := [BooksOf(book)];
    while true
      invariant book.Valid()
      invariant forall a :: book.Wealth(a) == old(book.Wealth(a))
      invariant RunTo(run, BooksOf(book), now, book.isAuthorized) && run[0] == old(BooksOf(book))
      decreases |book.deals|
    {
      var found, id := FirstDue(book.deals, now);
      if !found {
        break;
      }
      run := ProcessNext(book, id, now, run);
    }
  }

  lemma {:induction false} RunEnds(run: seq<Books>, b: Books, now: nat, isAuthorized: (Account, Asset) -> bool)
    requires RunTo(run, b, now, isAuthorized) && NoneDue(b.deals, now)
    ensures AllEnd(run[0], b, now, isAuthorized)
  {
  }

  ghost predicate NoneDue(deals: Deals, now: nat) {
    forall i :: i in deals ==> deals[i].latestRepayTime > now
  }

  ghost predicate SameTerms(before: Offers, after: Offers) {
    after.Keys == before.Keys
    && forall id {:trigger SameTermsAt(before, after, id)} :: SameTermsAt(before, after, id)
  }

  predicate SameTermsAt(before: Offers, after: Offers, id: nat) {
    id in after && id in before ==> after[id].terms == before[id].terms
  }

  /** Some of the deals are gone, none of them early. */
  ghost predicate StillOpen(before: Deals, after: Deals, now: nat) {
    forall i {:trigger OpenAt(before, after, now, i)} :: OpenAt(before, after, now, i)
  }

  predicate OpenAt(before: Deals, after: Deals, now: nat, i: nat) {
    && (i in after ==> i in before && after[i] == before[i])
    && (i in before && before[i].latestRepayTime > now ==> i in after)
  }

  /** The next deal that is due comes to its end. */
  method ProcessNext(book: CreditBook, id: nat, ghost now: nat, ghost run: seq<Books>)
    returns (ghost longer: seq<Books>)
    requires book.Valid() && IsFirst(book.deals, id) && book.deals[id].latestRepayTime <= now
    requires RunTo(run, BooksOf(book), now, book.isAuthorized)
    modifies book`offers, book`deals, book`summaries, book.ledger`funds, book.ledger`journal
    ensures book.Valid()
    ensures forall a :: book.Wealth(a) == old(book.Wealth(a))
    ensures RunTo(longer, BooksOf(book), now, book.isAuthorized) && longer[0] == run[0]
    ensures |book.deals| < |old(book.deals)|
  {
    ghost var before := BooksOf(book);
    ProcessOne(book, id);
    OneLessDue(run, before, BooksOf(book), id, book.isAuthorized, now);
    longer := run + [BooksOf(book)];
  }

  method ProcessOne(book: CreditBook, id: nat)
    requires book.Valid() && id in book.deals
    modifies book`offers, book`deals, book`summaries, book.ledger`funds, book.ledger`journal
    ensures book.Valid()
    ensures forall a :: book.Wealth(a) == old(book.Wealth(a))
    ensures Ends(old(BooksOf(book)), BooksOf(book), id, book.isAuthorized)
  {
    var repaid, fee := ProcessDeal(book, id);
  }

  /** How far the deals that are due have come to their ends. */
  ghost predicate RunTo(run: seq<Books>, b: Books, now: nat, isAuthorized: (Account, Asset) -> bool) {
    && IsRun(run, now, isAuthorized) && run[|run| - 1] == b
    && SameTerms(run[0].offers, b.offers) && StillOpen(run[0].deals, b.deals, now)
  }

  lemma {:induction false} OneLessDue(run: seq<Books>, b: Books, next: Books, id: nat,
                                      isAuthorized: (Account, Asset) -> bool, now: nat)
    requires RunTo(run, b, now, isAuthorized)
    requires IsFirst(b.deals, id) && b.deals[id].latestRepayTime <= now && Ends(b, next, id, isAuthorized)
    ensures RunTo(run + [next], next, now, isAuthorized) && |next.deals| < |b.deals|
  {
    Smaller(b.deals, id);
    assert EndsNext(b, next, now, isAuthorized);
    LongerRun(run, next, now, isAuthorized);
    FewerOpen(run[0].deals, b.deals, id, now);
    StillSameTerms(run[0].offers, b.offers, next.offers);
  }

  lemma {:induction false} LongerRun(run: seq<Books>, next: Books, now: nat, isAuthorized: (Account, Asset) -> bool)
    requires IsRun(run, now, isAuthorized) && EndsNext(run[|run| - 1], next, now, isAuthorized)
    ensures IsRun(run + [next], now, isAuthorized) && (run + [next])[0] == run[0]
  {
  }

  lemma {:induction false} FewerOpen(before: Deals, deals: Deals, id: nat, now: nat)
    requires StillOpen(before, deals, now) && id in deals && deals[id].latestRepayTime <= now
    ensures StillOpen(before, deals - {id}, now)
  {
    forall i
      ensures OpenAt(before, deals - {id}, now, i)
    {
      assert OpenAt(before, deals, now, i);
    }
  }

  lemma {:induction false} StillSameTerms(before: Offers, offers: Offers, after: Offers)
    requires SameTerms(before, offers)
    requires exists i, o: Offer :: i in offers && after == offers[i := o] && o.terms == offers[i].terms
    ensures SameTerms(before, after)
  {
    forall i
      ensures SameTermsAt(before, after, i)
    {
      assert SameTermsAt(before, offers, i);
    }
  }

  // ----- whole runs -----

  datatype CreditStep =
    | Create(id: nat, owner: Account, asset: Asset, balance: nat, terms: OfferTerms)
    | Delete(id: nat, owner: Account)
    | Update(id: nat, owner: Account, update: OfferUpdate)
    | Accept(id: nat, acceptance: Acceptance)
    | Repay(id: nat, account: Account, amount: nat, creditFee: nat)
    | ChangeDeal(id: nat, account: Account, autoRepay: AutoRepayment)
    | NextBlock

  /** What the operations' own validation asks for. Ids are never used twice. */
  predicate WellFormedIn(b: Books, step: CreditStep) {
    match step
    case Create(id, _, _, balance, terms) =>
      id !in b.offers && balance > 0 && GoodTerms(terms) && forall d :: d in b.deals ==> b.deals[d].offer != id
    case Update(id, _, update) =>
      update.delta != Some(0) && (id in b.offers ==> GoodTerms(NewTerms(b.offers[id].terms, update)))
    case Accept(id, a) => id !in b.deals && a.amount > 0 && a.collateral > 0
    case Repay(_, _, amount, _) => amount > 0
    case _ => true
  }

  /** Nothing is asked of a deletion, of a change of a deal's repayment, or of a block; amounts are
      positive, and what is created has a new id. */
  lemma WellFormedMeans(b: Books, step: CreditStep)
    ensures step.Delete? || step.ChangeDeal? || step.NextBlock? ==> WellFormedIn(b, step)
    ensures step.Repay? ==> (WellFormedIn(b, step) <==> step.amount > 0)
    ensures step.Accept? ==>
      (WellFormedIn(b, step) <==>
         step.id !in b.deals && step.acceptance.amount > 0 && step.acceptance.collateral > 0)
    ensures step.Create? ==>
      (WellFormedIn(b, step) <==>
         && step.id !in b.offers && step.balance > 0 && GoodTerms(step.terms)
         && !exists d :: d in b.deals && b.deals[d].offer == step.id)
  {
  }

  predicate WellFormed(book: CreditBook, step: CreditStep)
    reads book`offers, book`deals, book`summaries
  {
    WellFormedIn(Books(book.offers, book.deals, book.summaries, []), step)
  }

  /** What each step does, to the last posting; a step that is refused does nothing. */
  ghost predicate Done(step: CreditStep, now: nat, isAuthorized: (Account, Asset) -> bool, was: Books, b: Books)
    requires now <= MAX_TIME && GoodOffers(was)
  {
    match step
    case Create(id, owner, asset, balance, terms) =>
      b == if EndsInTime(terms, now) && isAuthorized(owner, asset) && balance <= BalanceIn(was, owner, asset) then
             was.(offers := was.offers[id := Offer(owner, asset, balance, balance, terms)],
                  journal := was.journal + [Posting(Balance(owner, asset), 0 - balance)])
           else was
    case Delete(id, owner) =>
      b == if id in was.offers && was.offers[id].owner == owner
              && forall d :: d in was.deals ==> was.deals[d].offer != id then
             was.(offers := was.offers - {id},
                  journal := was.journal + [Posting(Balance(owner, was.offers[id].asset), was.offers[id].current)])
           else was
    case Update(id, owner, u) => UpdateDone(id, owner, u, now, isAuthorized, was, b)
    case Accept(id, a) =>
      b == if Accepts(was.offers, was.summaries, isAuthorized, a, now)
              && a.collateral <= BalanceIn(was, a.borrower, a.collateralAsset) then
             var d := DealFor(was.offers[a.offer], a, now);
             Books(Borrowed(was.offers, d), was.deals[id := d],
                   was.summaries[(a.offer, a.borrower) := SummaryOf(was.summaries, a.offer, a.borrower) + a.amount],
                   was.journal + [ Posting(Balance(a.borrower, a.collateralAsset), 0 - a.collateral),
                                   Posting(Balance(a.borrower, d.debtAsset), a.amount) ])
           else was
    case Repay(id, account, amount, creditFee) => RepayDone(id, account, amount, creditFee, isAuthorized, was, b)
    case ChangeDeal(id, account, autoRepay) =>
      b == if id in was.deals && was.deals[id].borrower == account && was.deals[id].autoRepay != autoRepay then
             was.(deals := was.deals[id := was.deals[id].(autoRepay := autoRepay)])
           else was
    case NextBlock => AllEnd(DisabledIn(was, now), b, now, isAuthorized)
  }

  ghost predicate UpdateDone(id: nat, owner: Account, u: OfferUpdate, now: nat, isAuthorized: (Account, Asset) -> bool,
                             was: Books, b: Books) {
    if id in was.offers && was.offers[id].owner == owner
        && UpdateAllowed(was, was.offers[id], u, now, isAuthorized) then
      var o, delta := was.offers[id], Or(u.delta, 0);
      && o.total + delta >= o.current + delta >= 0
      && b == was.(offers := was.offers[id := Offer(owner, o.asset, o.total + delta, o.current + delta,
                                                    NewTerms(o.terms, u))],
                   journal := was.journal + if u.delta.Some? then [Posting(Balance(owner, o.asset), 0 - delta)] else [])
    else
      b == was
  }

  ghost predicate UpdateAllowed(was: Books, o: Offer, u: OfferUpdate, now: nat,
                                isAuthorized: (Account, Asset) -> bool) {
    var delta := Or(u.delta, 0);
    && (delta > 0 ==> isAuthorized(o.owner, o.asset) && delta <= BalanceIn(was, o.owner, o.asset))
    && o.current + delta >= 0 && LeavesFunds(o, u) && EndsInTime(NewTerms(o.terms, u), now)
  }

  ghost predicate RepayDone(id: nat, account: Account, amount: nat, creditFee: nat,
                            isAuthorized: (Account, Asset) -> bool, was: Books, b: Books) {
    if id in was.deals && was.deals[id].borrower == account
        && RepayAllowed(was, was.deals[id], amount, creditFee, isAuthorized) then
      var d := was.deals[id];
      && d.debt > 0 && d.offer in was.offers
      && var o, released := was.offers[d.offer], Released(d.debt, d.collateral, amount);
         && released <= d.collateral && (d.offer, account) in was.summaries
         && amount <= was.summaries[(d.offer, account)]
         && b == Books(was.offers[d.offer := o.(total := o.total + creditFee,
                                                current := o.current + amount + creditFee)],
                       DealLess(was.deals, id, amount, released),
                       SummaryLess(was.summaries, (d.offer, account), amount),
                       was.journal + [ Posting(Balance(account, d.debtAsset), 0 - (amount + creditFee)),
                                       Posting(Balance(account, d.collateralAsset), released) ])
    else
      b == was
  }

  ghost predicate RepayAllowed(was: Books, d: Deal, amount: nat, creditFee: nat,
                               isAuthorized: (Account, Asset) -> bool) {
    && amount <= d.debt && creditFee >= RequiredFee(amount, d.feeRate)
    && isAuthorized(d.borrower, d.debtAsset) && isAuthorized(d.offerOwner, d.debtAsset)
    && amount + creditFee <= BalanceIn(was, d.borrower, d.debtAsset)
  }

  method TakeCreate(book: CreditBook, step: CreditStep, now: nat)
    requires step.Create?
    requires book.Valid() && WellFormed(book, step) && now <= MAX_TIME
    modifies book, book.ledger
    ensures book.Valid()
    ensures forall a :: book.Wealth(a) == old(book.Wealth(a))
    ensures Done(step, now, book.isAuthorized, old(BooksOf(book)), BooksOf(book))
  {
    var ok := book.CreateOffer(step.id, step.owner, step.asset, step.balance, step.terms, now);
  }

  method TakeDelete(book: CreditBook, step: CreditStep, now: nat)
    requires step.Delete?
    requires book.Valid() && WellFormed(book, step) && now <= MAX_TIME
    modifies book, book.ledger
    ensures book.Valid()
    ensures forall a :: book.Wealth(a) == old(book.Wealth(a))
    ensures Done(step, now, book.isAuthorized, old(BooksOf(book)), BooksOf(book))
  {
    var ok := book.DeleteOffer(step.id, step.owner);
  }

  method TakeUpdate(book: CreditBook, step: CreditStep, now: nat)
    requires step.Update?
    requires book.Valid() && WellFormed(book, step) && now <= MAX_TIME
    modifies book, book.ledger
    ensures book.Valid()
    ensures forall a :: book.Wealth(a) == old(book.Wealth(a))
    ensures Done(step, now, book.isAuthorized, old(BooksOf(book)), BooksOf(book))
  {
    var ok := book.UpdateOffer(step.id, step.owner, step.update, now);
  }

  method TakeAccept(book: CreditBook, step: CreditStep, now: nat)
    requires step.Accept?
    requires book.Valid() && WellFormed(book, step) && now <= MAX_TIME
    modifies book, book.ledger
    ensures book.Valid()
    ensures forall a :: book.Wealth(a) == old(book.Wealth(a))
    ensures Done(step, now, book.isAuthorized, old(BooksOf(book)), BooksOf(book))
  {
    var ok := book.AcceptOffer(step.id, step.acceptance, now);
  }

  method TakeRepay(book: CreditBook, step: CreditStep, now: nat)
    requires step.Repay?
    requires book.Valid() && WellFormed(book, step) && now <= MAX_TIME
    modifies book, book.ledger
    ensures book.Valid()
    ensures forall a :: book.Wealth(a) == old(book.Wealth(a))
    ensures Done(step, now, book.isAuthorized, old(BooksOf(book)), BooksOf(book))
  {
    var ok := book.RepayDeal(step.id, step.account, step.amount, step.creditFee);
  }

  method Take(book: CreditBook, step: CreditStep, now: nat)
    requires book.Valid() && WellFormed(book, step) && now <= MAX_TIME
    modifies book, book.ledger
    ensures book.Valid()
    ensures forall a :: book.Wealth(a) == old(book.Wealth(a))
    ensures Done(step, now, book.isAuthorized, old(BooksOf(book)), BooksOf(book))
  {
    match step {
      case Create(_, _, _, _, _) => TakeCreate(book, step, now);
      case Delete(_, _) => TakeDelete(book, step, now);
      case Update(_, _, _) => TakeUpdate(book, step, now);
      case Accept(_, _) => TakeAccept(book, step, now);
      case Repay(_, _, _, _) => TakeRepay(book, step, now);
      case ChangeDeal(id, account, autoRepay) => var ok := book.UpdateDeal(id, account, autoRepay);
      case NextBlock => UpdateOffersAndDeals(book, now);
    }
  }

  /** A run: each step that is well formed is taken, with the time it comes at. */
  ghost predicate Traced(steps: seq<(CreditStep, nat)>, trace: seq<Books>, isAuthorized: (Account, Asset) -> bool) {
    && |trace| == |steps| + 1
    && forall k :: 0 <= k < |steps| ==> Taken(steps[k].0, steps[k].1, isAuthorized, trace[k], trace[k + 1])
  }

  ghost predicate Taken(step: CreditStep, now: nat, isAuthorized: (Account, Asset) -> bool, was: Books, b: Books) {
    if WellFormedIn(was, step) && now <= MAX_TIME && GoodOffers(was) then
      Done(step, now, isAuthorized, was, b)
    else
      b == was
  }

  predicate GoodOffers(b: Books) {
    forall id {:trigger GoodTerms(b.offers[id].terms)} :: id in b.offers ==> GoodTerms(b.offers[id].terms)
  }

  /** After every run the three records agree, and nothing has been created or lost. Each step did
      what it does, and nothing else. */
  method Run(book: CreditBook, steps: seq<(CreditStep, nat)>) returns (ghost trace: seq<Books>)
    requires book.Valid()
    modifies book, book.ledger
    ensures book.Valid() && InStep(book.offers, book.deals, book.summaries)
    ensures forall a :: book.Wealth(a) == old(book.Wealth(a))
    ensures Traced(steps, trace, book.isAuthorized) && trace[0] == old(BooksOf(book)) && trace[|steps|] == BooksOf(book)
    ensures forall i :: 0 <= i <= |steps| ==> GoodOffers(trace[i])
  {
    trace := [BooksOf(book)];
    for k := 0 to |steps|
      invariant book.Valid()
      invariant forall a :: book.Wealth(a) == old(book.Wealth(a))
      invariant Traced(steps[..k], trace, book.isAuthorized) && trace[0] == old(BooksOf(book))
      invariant trace[k] == BooksOf(book)
      invariant forall i :: 0 <= i <= k ==> GoodOffers(trace[i])
    {
      if WellFormed(book, steps[k].0) && steps[k].1 <= MAX_TIME {
        Take(book, steps[k].0, steps[k].1);
      }
      trace := trace + [BooksOf(book)];
      assert steps[..k + 1] == steps[..k] + [steps[k]];
    }
    assert steps[..|steps|] == steps;
  }
}
