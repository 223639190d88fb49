/** What the terms of a deal promise its lender, over whole runs of credit offers and deals. */
module CreditCover {
  import opened Options
  import opened Rounding
  import opened Prices
  import opened Ledgers
  import opened LimitMatching
  import opened CreditDeals
  import opened CreditOffers
  import opened CreditExpiry

  /** The collateral of a deal is worth its debt. */
  predicate Covers(d: Deal, price: Price) {
    d.debt * price.quote <= d.collateral * price.base
  }

  /** The step by which a deal was made, and the price that its offer had then for its collateral. */
  ghost predicate MadeAt(steps: seq<(CreditStep, nat)>, trace: seq<Books>, j: nat, id: nat, d: Deal)
    requires |trace| == |steps| + 1 && j < |steps|
  {
    && steps[j].0.Accept? && steps[j].0.id == id
    && MadeBy(steps[j].0.acceptance, trace[j], d)
  }

  ghost predicate MadeBy(a: Acceptance, was: Books, d: Deal) {
    && a.offer == d.offer && a.borrower == d.borrower && d.debt <= a.amount
    && a.offer in was.offers
    && var t := was.offers[a.offer].terms;
       d.collateralAsset in t.acceptableCollateral && Covers(d, t.acceptableCollateral[d.collateralAsset])
  }

  /** A deal is the same, or has less debt and no less collateral for it. */
  ghost predicate NoWorse(was: Deal, d: Deal) {
    && d.offer == was.offer && d.borrower == was.borrower && d.collateralAsset == was.collateralAsset
    && d.debt <= was.debt
    && ((d.collateral == was.collateral && d.debt == was.debt)
        || (was.debt > 0 && was.collateral * d.debt <= d.collateral * was.debt))
  }

  lemma {:induction false} StaysCovered(a: Acceptance, b: Books, was: Deal, d: Deal)
    requires MadeBy(a, b, was) && NoWorse(was, d) && GoodOffers(b)
    ensures MadeBy(a, b, d)
  {
    var t := b.offers[a.offer].terms;
    var p := t.acceptableCollateral[d.collateralAsset];
    assert GoodTerms(b.offers[a.offer].terms);
    if d.debt != was.debt || d.collateral != was.collateral {
      // quote/base <= collateral/debt before <= collateral/debt now
      Chain(p.quote, p.base, was.debt, was.collateral, d.debt, d.collateral);
    }
  }

  lemma {:induction false} LessIsNoWorse(was: Deal, amount: nat)
    requires was.debt > 0 && amount < was.debt && Released(was.debt, was.collateral, amount) <= was.collateral
    ensures NoWorse(was, was.(debt := was.debt - amount,
                              collateral := was.collateral - Released(was.debt, was.collateral, amount)))
  {
    var released := Released(was.debt, was.collateral, amount);
    ReleasedIs(was.debt, was.collateral, amount);
    assert was.collateral * (was.debt - amount) == was.collateral * was.debt - amount * was.collateral;
    assert (was.collateral - released) * was.debt == was.collateral * was.debt - released * was.debt;
  }

  lemma {:induction false} EndKeepsOthers(was: Books, b: Books, now: nat, isAuthorized: (Account, Asset) -> bool,
                                          id: nat)
    requires EndsNext(was, b, now, isAuthorized) && id in b.deals
    ensures id in was.deals && was.deals[id] == b.deals[id]
  {
  }

  lemma {:induction false} RunStepKeepsOthers(run: seq<Books>, now: nat, isAuthorized: (Account, Asset) -> bool,
                                              i: nat, id: nat)
    requires IsRun(run, now, isAuthorized) && i < |run| - 1 && id in run[i + 1].deals
    ensures id in run[i].deals && run[i].deals[id] == run[i + 1].deals[id]
  {
    EndKeepsOthers(run[i], run[i + 1], now, isAuthorized, id);
  }

  /** The ends of deals that are due leave the others as they were. */
  lemma {:induction false} OnlyEnds(run: seq<Books>, now: nat, isAuthorized: (Account, Asset) -> bool, k: nat, id: nat)
    requires IsRun(run, now, isAuthorized) && k < |run| && id in run[k].deals
    ensures id in run[0].deals && run[0].deals[id] == run[k].deals[id]
  {
    if k > 0 {
      RunStepKeepsOthers(run, now, isAuthorized, k - 1, id);
      OnlyEnds(run, now, isAuthorized, k - 1, id);
    }
  }

  /** One step makes a deal, on the offer's terms, or leaves it no worse covered. */
  lemma {:induction false} StepOnDeal(step: CreditStep, now: nat, isAuthorized: (Account, Asset) -> bool,
                                      was: Books, b: Books, id: nat)
    requires now <= MAX_TIME && GoodOffers(was) && Done(step, now, isAuthorized, was, b) && id in b.deals
    ensures (id in was.deals && NoWorse(was.deals[id], b.deals[id]))
            || (step.Accept? && step.id == id && MadeBy(step.acceptance, was, b.deals[id]))
  {
    match step
    case Accept(i, a) =>
      if Accepts(was.offers, was.summaries, isAuthorized, a, now) && i == id && b != was {
        var p := was.offers[a.offer].terms.acceptableCollateral[a.collateralAsset];
        assert GoodTerms(was.offers[a.offer].terms);
        ConvertUpGalois(a.amount, p, a.collateral);
      }
    case Repay(i, account, amount, creditFee) =>
      if i == id && b != was && amount < was.deals[id].debt {
        LessIsNoWorse(was.deals[id], amount);
      }
    case NextBlock =>
      var run :| IsRun(run, now, isAuthorized) && run[0] == DisabledIn(was, now) && run[|run| - 1] == b;
      OnlyEnds(run, now, isAuthorized, |run| - 1, id);
    case _ =>
  }

  /** In every run that starts without deals each deal that is open was made by an acceptance, and its
      collateral still is worth its debt at the price that the offer had then, whatever was repaid
      and whatever became of the offer since. */
  lemma {:induction false} OpenDealsAreCovered(steps: seq<(CreditStep, nat)>, trace: seq<Books>,
                                               isAuthorized: (Account, Asset) -> bool, k: nat, id: nat)
    requires Traced(steps, trace, isAuthorized) && k <= |steps| && trace[0].deals == map[]
    requires forall i :: 0 <= i <= |steps| ==> GoodOffers(trace[i])
    requires id in trace[k].deals
    ensures exists j :: 0 <= j < k && MadeAt(steps, trace, j, id, trace[k].deals[id])
  {
    if k > 0 {
      var (step, now) := steps[k - 1];
      var was, b := trace[k - 1], trace[k];
      assert Taken(steps[k - 1].0, steps[k - 1].1, isAuthorized, trace[k - 1], trace[k - 1 + 1]);
      if b.deals == was.deals {
        OpenDealsAreCovered(steps, trace, isAuthorized, k - 1, id);
      } else {
        StepOnDeal(step, now, isAuthorized, was, b, id);
        if id in was.deals && NoWorse(was.deals[id], b.deals[id]) {
          OpenDealsAreCovered(steps, trace, isAuthorized, k - 1, id);
          var j :| 0 <= j < k - 1 && MadeAt(steps, trace, j, id, was.deals[id]);
          StaysCovered(steps[j].0.acceptance, trace[j], was.deals[id], b.deals[id]);
          assert MadeAt(steps, trace, j, id, b.deals[id]);
        } else {
          assert MadeAt(steps, trace, k - 1, id, b.deals[id]);
        }
      }
    }
  }
}
