/** `call_order_object::get_max_debt_to_cover`: how much debt a margin call covers when its
    owner has set a target collateral ratio. Prices here are collateral per debt. */
module MaxDebtToCover {
  import opened Options
  import opened Rounding
  import opened Prices
  import opened LimitMatching

  const COLLATERAL_RATIO_DENOM := 1000

  datatype Call = Call(collateral: nat, debt: nat, targetRatio: Option<nat>)

  function Collateralization(call: Call): Price {
    Price(call.collateral, call.debt)
  }

  /** What covering `debt` costs in collateral, and what `collateral` covers. */
  function Cost(debt: nat, match_: Price): nat
    requires Positive(match_)
  {
    ConvertUp(debt, Inverse(match_))
  }

  /** The price `feed * ratio` that the position has to be above after a partial cover. */
  function Target(feed: Price, ratio: nat): Price
    requires Positive(feed) && ratio > 0
  {
    Scale(feed, ratio, COLLATERAL_RATIO_DENOM)
  }

  /** The check `result_is_good` of the source. */
  predicate ResultIsGood(call: Call, target: Price, pay: nat, cover: nat) {
    && pay < call.collateral
    && cover < call.debt
    && Below(target, Price(call.collateral - pay, call.debt - cover))
  }

  /** A pair that neither rounds up in collateral nor leaves debt on the table. */
  predicate Stable(match_: Price, pay: nat, cover: nat)
    requires Positive(match_)
  {
    pay == Cost(cover, match_) && cover == Convert(pay, match_)
  }

  /** A pair the searches work with: stable, or the whole position. */
  predicate Candidate(call: Call, match_: Price, pay: nat, cover: nat)
    requires Positive(match_)
  {
    (pay == call.collateral && cover == call.debt)
    || (pay < call.collateral && cover < call.debt && Stable(match_, pay, cover))
  }

  /** What the callers may rely on. */
  ghost predicate Covered(call: Call, match_: Price, target: Price, r: nat)
    requires Positive(match_)
  {
    || r == call.debt
    || (r > 0 && Stable(match_, Cost(r, match_), r) && ResultIsGood(call, target, Cost(r, match_), r))
  }

  /** Rounding down to collateral and back gives a stable pair. */
  lemma DownIsStable(collateral: nat, match_: Price)
    requires Positive(match_)
    ensures var cover := Convert(collateral, match_);
            Stable(match_, Cost(cover, match_), cover) && Cost(cover, match_) <= collateral
  {
    Stabilised(collateral, match_);
  }

  /** So does rounding up to collateral and then down to debt. */
  lemma UpIsStable(debt: nat, match_: Price)
    requires Positive(match_)
    ensures var pay := Cost(debt, match_);
            Stable(match_, pay, Convert(pay, match_)) && debt <= Convert(pay, match_)
  {
    var pay := Cost(debt, match_);
    var cover := Convert(pay, match_);
    RoundTripUp(debt, Inverse(match_));
    DownIsStable(pay, match_);
    ConvertUpMonotone(debt, cover, Inverse(match_), Inverse(match_));
  }

  /** A nonnegative numerator says the position is not yet above the target. */
  lemma NumeratorMeansBelowTarget(call: Call, feed: Price, match_: Price, tcr: nat)
    requires Positive(feed) && Positive(match_) && tcr > 0
    ensures feed.base * match_.quote * call.debt * tcr
              - feed.quote * match_.quote * call.collateral * COLLATERAL_RATIO_DENOM >= 0
            <==> AtMost(Collateralization(call), Target(feed, tcr))
  {
    var owed := feed.base * tcr * call.debt;
    var has := call.collateral * (feed.quote * COLLATERAL_RATIO_DENOM);
    assert feed.base * match_.quote * call.debt * tcr == owed * match_.quote by {
      MulRearrange(feed.base, match_.quote, call.debt, tcr);
    }
    assert feed.quote * match_.quote * call.collateral * COLLATERAL_RATIO_DENOM == has * match_.quote by {
      MulRearrange(feed.quote, match_.quote, call.collateral, COLLATERAL_RATIO_DENOM);
    }
    if has <= owed {
      MulLe(has, owed, match_.quote);
    } else {
      MulLt(owed, has, match_.quote);
    }
  }

  lemma MulRearrange(a: int, m: int, d: int, t: int)
    ensures a * m * d * t == a * t * d * m
    ensures a * m * d * t == d * (a * t) * m
  {
    assert a * m * d * t == m * (a * d * t);
    assert a * t * d == a * d * t;
    assert d * (a * t) == a * d * t;
  }

  /** Covering part of a position that is not above the target, so that it ends above it,
      never lowers its collateral ratio. */
  lemma CoveredRaisesRatio(call: Call, match_: Price, target: Price, r: nat)
    requires Positive(match_) && Positive(target) && call.collateral > 0 && call.debt > 0
    requires AtMost(Collateralization(call), target)
    requires Covered(call, match_, target, r) && r < call.debt
    ensures Cost(r, match_) < call.collateral
    ensures Below(Collateralization(call), Price(call.collateral - Cost(r, match_), call.debt - r))
  {
    var after := Price(call.collateral - Cost(r, match_), call.debt - r);
    if AtMost(after, Collateralization(call)) {
      AtMostTransitive(after, Collateralization(call), target);
    }
  }

  /** A part of the debt that leaves the position above its target even if one more unit of debt were
      left. */
  predicate GoodWithSpare(call: Call, match_: Price, target: Price, x: nat)
    requires Positive(match_)
  {
    && x < call.debt && Cost(x, match_) < call.collateral && Stable(match_, Cost(x, match_), x)
    && Below(target, Price(call.collateral - Cost(x, match_), call.debt - x + 1))
  }

  /** The result is no more than any such part. */
  ghost predicate NoMoreThanNeeded(call: Call, match_: Price, target: Price, r: nat)
    requires Positive(match_)
  {
    forall x: nat {:trigger GoodWithSpare(call, match_, target, x)} ::
      GoodWithSpare(call, match_, target, x) ==> r <= x
  }

  /** In products: `a` over `b` is the target, in the same measure as the match price. */
  lemma SpareIsMuch(a: nat, b: nat, base: nat, quote: nat, collateral: nat, debt: nat, x: nat, pay: nat)
    requires quote > 0 && x * base <= pay * quote
    requires a * (debt - x + 1) < (collateral - pay) * b
    ensures a * quote * debt - b * quote * collateral + a * quote < x * (a * quote - b * base)
  {
    MulLt(a * (debt - x + 1), (collateral - pay) * b, quote);
    MulLe(x * base, pay * quote, b);
    assert a * (debt - x + 1) * quote == a * quote * debt - x * (a * quote) + a * quote;
    assert (collateral - pay) * b * quote == b * quote * collateral - pay * quote * b;
    assert x * (a * quote - b * base) == x * (a * quote) - x * base * b;
  }

  lemma MuchIsGood(a: nat, b: nat, base: nat, quote: nat, collateral: nat, debt: nat, cover: nat, pay: nat)
    requires quote > 0 && b * base < a * quote && pay * quote < (cover + 1) * base
    requires a * quote * debt - b * quote * collateral + a * quote < cover * (a * quote - b * base)
    ensures a * (debt - cover) < (collateral - pay) * b
  {
    MulLe(pay * quote, (cover + 1) * base, b);
    assert (cover + 1) * base * b == cover * (b * base) + b * base;
    assert cover * (a * quote - b * base) == cover * (a * quote) - cover * (b * base);
    assert (collateral - pay) * b * quote == b * quote * collateral - pay * quote * b;
    assert a * (debt - cover) * quote == a * quote * debt - cover * (a * quote);
    CancelStrict(a * (debt - cover), (collateral - pay) * b, quote);
  }

  /** Numerator and denominator of the source's first estimate. */
  ghost function Numerator(call: Call, feed: Price, match_: Price, tcr: nat): int {
    feed.base * match_.quote * call.debt * tcr - feed.quote * match_.quote * call.collateral * COLLATERAL_RATIO_DENOM
  }

  ghost function Denominator(feed: Price, match_: Price, tcr: nat): int {
    feed.base * match_.quote * tcr - feed.quote * match_.base * COLLATERAL_RATIO_DENOM
  }

  /** With the fraction added the estimate is no more than is needed, */
  lemma SpareIsAboveEstimate(call: Call, feed: Price, match_: Price, tcr: nat, x: nat)
    requires Positive(feed) && Positive(match_) && tcr > 0 && GoodWithSpare(call, match_, Target(feed, tcr), x)
    ensures Numerator(call, feed, match_, tcr) + feed.base * match_.quote * tcr
            < x * Denominator(feed, match_, tcr)
  {
    var a, b := feed.base * tcr, feed.quote * COLLATERAL_RATIO_DENOM;
    var pay := Cost(x, match_);
    ConvertUpGalois(x, Inverse(match_), pay);
    Rearranged(call, feed, match_, tcr);
    SpareIsMuch(a, b, match_.base, match_.quote, call.collateral, call.debt, x, pay);
  }

  lemma Rearranged(call: Call, feed: Price, match_: Price, tcr: nat)
    ensures var a, b := feed.base * tcr, feed.quote * COLLATERAL_RATIO_DENOM;
            && Numerator(call, feed, match_, tcr) == a * match_.quote * call.debt - b * match_.quote * call.collateral
            && Denominator(feed, match_, tcr) == a * match_.quote - b * match_.base
            && feed.base * match_.quote * tcr == a * match_.quote
  {
    var a, b := feed.base * tcr, feed.quote * COLLATERAL_RATIO_DENOM;
    assert feed.base * match_.quote * tcr == a * match_.quote;
    assert feed.quote * match_.base * COLLATERAL_RATIO_DENOM == b * match_.base;
    assert feed.base * match_.quote * call.debt * tcr == a * match_.quote * call.debt;
    assert feed.quote * match_.quote * call.collateral * COLLATERAL_RATIO_DENOM == b * match_.quote * call.collateral;
  }

  /** and rounded up to a stable pair it is good. */
  lemma LargerIsGood(call: Call, feed: Price, match_: Price, tcr: nat, larger: nat)
    requires Positive(feed) && Positive(match_) && tcr > 0 && Denominator(feed, match_, tcr) > 0
    requires Numerator(call, feed, match_, tcr) + feed.base * match_.quote * tcr
             < larger * Denominator(feed, match_, tcr)
    requires Cost(larger, match_) < call.collateral && Convert(Cost(larger, match_), match_) < call.debt
    ensures ResultIsGood(call, Target(feed, tcr), Cost(larger, match_), Convert(Cost(larger, match_), match_))
  {
    var a, b := feed.base * tcr, feed.quote * COLLATERAL_RATIO_DENOM;
    var pay := Cost(larger, match_);
    var cover := Convert(pay, match_);
    UpIsStable(larger, match_);
    MulLe(larger, cover, Denominator(feed, match_, tcr));
    ConvertGalois(pay, match_, cover + 1);
    Rearranged(call, feed, match_, tcr);
    MuchIsGood(a, b, match_.base, match_.quote, call.collateral, call.debt, cover, pay);
  }

  lemma SpareIsLarger(call: Call, feed: Price, match_: Price, tcr: nat, x: nat)
    requires Positive(feed) && Positive(match_) && tcr > 0 && Numerator(call, feed, match_, tcr) >= 0
    requires GoodWithSpare(call, match_, Target(feed, tcr), x)
    ensures feed.base * match_.quote * tcr >= 0 && Denominator(feed, match_, tcr) > 0
    ensures Floor(Numerator(call, feed, match_, tcr), Denominator(feed, match_, tcr)) < x
    ensures Floor(Numerator(call, feed, match_, tcr) + feed.base * match_.quote * tcr,
                  Denominator(feed, match_, tcr)) < x
  {
    var n, fraction, d := Numerator(call, feed, match_, tcr), feed.base * match_.quote * tcr, Denominator(feed, match_,
                                                                                                          tcr);
    AddFraction(feed, match_, tcr);
    SpareIsAboveEstimate(call, feed, match_, tcr, x);
    if d <= 0 {
      MulLe(d, 0, x);
    }
    FloorGalois(n + fraction, d, x);
    FloorGalois(n, d, x);
  }

  /** A stable amount costs no more than a larger one, and covers no more. */
  lemma StableIsMonotone(match_: Price, less: nat, x: nat)
    requires Positive(match_) && less <= x && Stable(match_, Cost(x, match_), x)
    ensures Cost(less, match_) <= Cost(x, match_) && Convert(Cost(less, match_), match_) <= x
  {
    ConvertUpMonotone(less, x, Inverse(match_), Inverse(match_));
    ConvertMonotone(Cost(less, match_), Cost(x, match_), match_, match_);
  }

  /** A limit for the search that is good itself. */
  predicate GoodLimit(call: Call, match_: Price, target: Price, larger: nat)
    requires Positive(match_)
  {
    && larger < call.debt
    && ResultIsGood(call, target, Cost(larger, match_), Convert(Cost(larger, match_), match_))
  }

  predicate IsLimit(call: Call, match_: Price, larger: nat)
    requires Positive(match_)
  {
    && larger < call.debt
    && Cost(larger, match_) < call.collateral && Convert(Cost(larger, match_), match_) < call.debt
  }

  /** The larger estimate is good, if it is a part of the position at all. */
  lemma AboveIsGoodLimit(call: Call, feed: Price, match_: Price, tcr: nat, larger: nat)
    requires Positive(feed) && Positive(match_) && tcr > 0 && Numerator(call, feed, match_, tcr) >= 0
    requires feed.base * match_.quote * tcr >= 0 && Denominator(feed, match_, tcr) > 0
    requires larger == Floor(Numerator(call, feed, match_, tcr) + feed.base * match_.quote * tcr,
                             Denominator(feed, match_, tcr)) + 1
    ensures IsLimit(call, match_, larger) ==> GoodLimit(call, match_, Target(feed, tcr), larger)
  {
    if IsLimit(call, match_, larger) {
      FloorGalois(Numerator(call, feed, match_, tcr) + feed.base * match_.quote * tcr,
                  Denominator(feed, match_, tcr), larger);
      LargerIsGood(call, feed, match_, tcr, larger);
    }
  }

  /** Where there is a part with a unit of debt to spare, the larger estimate is a good limit. */
  lemma LargerIsGoodLimit(call: Call, feed: Price, match_: Price, tcr: nat, x: nat, larger: nat)
    requires Positive(feed) && Positive(match_) && tcr > 0 && Numerator(call, feed, match_, tcr) >= 0
    requires feed.base * match_.quote * tcr >= 0 && Denominator(feed, match_, tcr) > 0
    requires larger == Floor(Numerator(call, feed, match_, tcr) + feed.base * match_.quote * tcr,
                             Denominator(feed, match_, tcr)) + 1
    requires GoodWithSpare(call, match_, Target(feed, tcr), x)
    ensures larger <= x && Convert(Cost(larger, match_), match_) <= x
    ensures GoodLimit(call, match_, Target(feed, tcr), larger)
  {
    SpareIsLarger(call, feed, match_, tcr, x);
    StableIsMonotone(match_, larger, x);
    AboveIsGoodLimit(call, feed, match_, tcr, larger);
  }

  /** What is promised of the result: nothing out of margin call territory; else the whole debt, or,
      when there is a target ratio, a part of it that brings the position above that, if it is not,
      and no more than any part that does so with a unit of debt to spare. */
  ghost predicate IsMaxDebt(call: Call, match_: Price, feed: Price, mcr: nat, maintenance: Price, r: nat)
    requires Positive(match_) && Positive(feed) && Positive(maintenance) && mcr > 0
    requires call.collateral > 0 && call.debt > 0
  {
    && r <= call.debt
    && if Below(maintenance, Collateralization(call)) then r == 0
       else if call.targetRatio.None? then r == call.debt
       else
         var target := Target(feed, if call.targetRatio.value > mcr then call.targetRatio.value else mcr);
         if AtMost(Collateralization(call), target) then
           Covered(call, match_, target, r) && NoMoreThanNeeded(call, match_, target, r)
         else r == 0
  }

  /** The whole computation. It terminates, none of its internal assertions can fail, and the
      result either closes the position or leaves it above its target ratio. */
  method GetMaxDebtToCover(call: Call, match_: Price, feed: Price, mcr: nat, maintenance: Price) returns (r: nat)
    requires Positive(match_) && Positive(feed) && Positive(maintenance) && mcr > 0
    requires call.collateral > 0 && call.debt > 0
    ensures IsMaxDebt(call, match_, feed, mcr, maintenance, r)
  {
    if Below(maintenance, Collateralization(call)) {
      return 0;
    }
    if call.targetRatio.None? {
      return call.debt;
    }
    var tcr := if call.targetRatio.value > mcr then call.targetRatio.value else mcr;
    var target := Target(feed, tcr);
    var numerator := feed.base * match_.quote * call.debt * tcr
                     - feed.quote * match_.quote * call.collateral * COLLATERAL_RATIO_DENOM;
    NumeratorMeansBelowTarget(call, feed, match_, tcr);
    if numerator < 0 {
      return 0;
    }
    ghost var searched;
    r, searched := CoverToTarget(call, match_, feed, tcr, numerator);
  }

  /** The part of it for a position that is not above its target. As products are exact here, the larger
      estimate is always good, and the last search of the source is never reached. */
  method CoverToTarget(call: Call, match_: Price, feed: Price, tcr: nat, first: int)
    returns (r: nat, ghost searchedForward: bool)
    requires Positive(match_) && Positive(feed) && tcr > 0 && call.collateral > 0 && call.debt > 0
    requires first == Numerator(call, feed, match_, tcr) >= 0
    requires AtMost(Collateralization(call), Target(feed, tcr))
    ensures r <= call.debt && Covered(call, match_, Target(feed, tcr), r)
    ensures NoMoreThanNeeded(call, match_, Target(feed, tcr), r)
    ensures !searchedForward
  {
    searchedForward := false;
    var target, numerator := Target(feed, tcr), first;
    var denominator := feed.base * match_.quote * tcr - feed.quote * match_.base * COLLATERAL_RATIO_DENOM;
    forall x: nat | GoodWithSpare(call, match_, target, x)
      ensures denominator > 0 && Floor(numerator, denominator) < x
    {
      SpareIsLarger(call, feed, match_, tcr, x);
    }
    if denominator <= 0 {
      return call.debt, false;
    }
    var estimate := Floor(numerator, denominator);
    if estimate >= call.debt {
      return call.debt, false;
    }
    // stabilize
    var cover := Convert(Convert(estimate, Inverse(match_)), match_);
    var pay := Cost(cover, match_);
    DownIsStable(Convert(estimate, Inverse(match_)), match_);
    StabilisedIsLess(estimate, match_);
    forall x: nat | GoodWithSpare(call, match_, target, x)
      ensures cover < x && pay <= Cost(x, match_)
    {
      StableIsMonotone(match_, cover, x);
    }
    if cover >= call.debt || pay >= call.collateral {
      return call.debt, false;
    }
    if ResultIsGood(call, target, pay, cover) {
      GoodIsNotZero(call, match_, target, cover);
      return cover, false;
    }
    // too small due to rounding: deal with the fraction
    AddFraction(feed, match_, tcr);
    numerator := numerator + feed.base * match_.quote * tcr;
    var larger := Floor(numerator, denominator) + 1;
    FloorMonotone(first, numerator, denominator);
    AboveIsGoodLimit(call, feed, match_, tcr, larger);
    r, searchedForward := Search(call, match_, target, pay, cover, if larger >= call.debt then call.debt else larger);
    forall x: nat | GoodWithSpare(call, match_, target, x)
      ensures r <= x
    {
      LargerIsGoodLimit(call, feed, match_, tcr, x, larger);
    }
  }

  lemma StabilisedIsLess(amount: nat, match_: Price)
    requires Positive(match_)
    ensures Convert(Convert(amount, Inverse(match_)), match_) <= amount
  {
    var pay := Convert(amount, Inverse(match_));
    ConvertGalois(amount, Inverse(match_), pay);
    ConvertGalois(pay, match_, amount + 1);
    if amount < Convert(pay, match_) {
      MulLt(amount, amount + 1, match_.base);
    }
  }

  lemma AddFraction(feed: Price, match_: Price, tcr: nat)
    ensures feed.base * match_.quote * tcr >= 0
  {
    MulNonNeg(feed.base, match_.quote);
    MulNonNeg(feed.base * match_.quote, tcr);
  }

  /** A good result covers something, because the position as it is is not good. */
  lemma GoodIsNotZero(call: Call, match_: Price, target: Price, cover: nat)
    requires Positive(match_)
    requires AtMost(Collateralization(call), target)
    requires ResultIsGood(call, target, Cost(cover, match_), cover)
    ensures cover > 0
  {
    if cover == 0 {
      assert Cost(0, match_) == 0 by { ConvertUpGalois(0, Inverse(match_), 0); }
    }
  }

  /** The binary search between a candidate that is too small and an upper limit, and the
      search forward when even the upper limit is too small. */
  method Search(call: Call, match_: Price, target: Price, pay0: nat, cover0: nat, larger: nat)
    returns (r: nat, ghost searchedForward: bool)
    requires Positive(match_) && call.collateral > 0 && call.debt > 0
    requires AtMost(Collateralization(call), target)
    requires pay0 < call.collateral && cover0 < call.debt && larger <= call.debt
    requires Stable(match_, pay0, cover0) && cover0 < larger
    ensures r <= call.debt && Covered(call, match_, target, r)
    ensures GoodLimit(call, match_, target, larger) ==> r <= Convert(Cost(larger, match_), match_)
    ensures searchedForward ==> IsLimit(call, match_, larger) && !GoodLimit(call, match_, target, larger)
  {
    ghost var goodLimit, limit := GoodLimit(call, match_, target, larger), Convert(Cost(larger, match_), match_);
    ghost var isLimit := IsLimit(call, match_, larger);
    var maxPay: nat := if larger == call.debt then call.collateral else Cost(larger, match_);
    if maxPay > call.collateral {
      maxPay := call.collateral;
    }
    var maxCover: nat := if maxPay == call.collateral then call.debt else Convert(maxPay, match_);
    if maxCover >= call.debt {
      maxPay, maxCover := call.collateral, call.debt;
    }
    UpIsStable(larger, match_);
    assert Candidate(call, match_, maxPay, maxCover);
    if maxPay <= pay0 || maxCover <= cover0 {
      if maxPay <= pay0 {
        ConvertMonotone(maxPay, pay0, match_, match_);
      }
      return call.debt, false;
    }
    var minPay: nat, minCover: nat := pay0, cover0;
    var pay: nat, cover: nat := pay0, cover0;
    var maxIsOk := false;
    while true
      invariant minPay < maxPay <= call.collateral && minCover < maxCover <= call.debt
      invariant Candidate(call, match_, maxPay, maxCover)
      invariant maxIsOk ==> ResultIsGood(call, target, maxPay, maxCover)
      invariant goodLimit ==> ResultIsGood(call, target, maxPay, maxCover) && maxCover <= limit
      invariant maxPay < call.collateral ==> maxIsOk || isLimit
      decreases maxPay - minPay
    {
      pay, cover := Mean(call, match_, minPay, minCover, maxPay, maxCover);
      if pay == maxPay && (maxIsOk || pay == call.collateral) {
        if maxIsOk {
          GoodIsNotZero(call, match_, target, cover);
        }
        return cover, false;
      }
      assert pay < call.collateral && cover < call.debt;
      if ResultIsGood(call, target, pay, cover) {
        if pay == maxPay {
          GoodIsNotZero(call, match_, target, cover);
          return cover, false;
        }
        maxPay, maxCover := pay, cover;
        maxIsOk := true;
      } else {
        if pay == maxPay {
          break;
        }
        minPay, minCover := pay, cover;
      }
    }
    searchedForward := true;
    r := SearchForward(call, match_, target, pay, cover);
  }

  /** The candidate tried next: between the two limits, or the upper one itself. */
  method Mean(call: Call, match_: Price, minPay: nat, minCover: nat, maxPay: nat, maxCover: nat)
    returns (pay: nat, cover: nat)
    requires Positive(match_)
    requires minPay < maxPay && minCover < maxCover && Candidate(call, match_, maxPay, maxCover)
    ensures (pay == maxPay && cover == maxCover) || (minPay < pay < maxPay && minCover < cover <= maxCover)
    ensures Candidate(call, match_, pay, cover)
  {
    if match_.base < match_.quote {
      pay := (minPay + maxPay + 1) / 2;
      if pay == maxPay {
        cover := maxCover;
      } else {
        cover := Convert(pay, match_);
        if cover >= maxCover {
          pay, cover := maxPay, maxCover;
        } else {
          DownIsStable(pay, match_);
          pay := Cost(cover, match_);
          assert pay < maxPay;
        }
      }
    } else {
      cover := (minCover + maxCover) / 2;
      if cover == maxCover {
        pay := maxPay;
      } else {
        pay := Cost(cover, match_);
        if pay >= maxPay {
          pay, cover := maxPay, maxCover;
        } else {
          UpIsStable(cover, match_);
          cover := Convert(pay, match_);
          if cover >= maxCover {
            pay, cover := maxPay, maxCover;
          }
        }
      }
    }
    if pay <= minPay || cover <= minCover || pay > maxPay || cover > maxCover {
      pay, cover := maxPay, maxCover;
    }
  }

  /** Steps of 1, 1, 2, 3, 5, 8, ... until a result is good or nothing is left to try. */
  method SearchForward(call: Call, match_: Price, target: Price, pay0: nat, cover0: nat) returns (r: nat)
    requires Positive(match_) && AtMost(Collateralization(call), target)
    ensures r <= call.debt && Covered(call, match_, target, r)
  {
    var pay: nat, cover: nat := pay0, cover0;
    var d1: nat, d2: nat, d3: nat := 0, 1, 1;
    while true
      invariant 1 <= d2 <= d3 <= 2 * d2 && d3 == d1 + d2
      decreases 5 * call.collateral + 5 * call.debt - d2 - d3
    {
      if match_.base > match_.quote {
        pay := pay + d2;
        if pay >= call.collateral {
          return call.debt;
        }
        cover := Convert(pay, match_);
        if cover >= call.debt {
          return call.debt;
        }
        DownIsStable(pay, match_);
        pay := Cost(cover, match_);
        if pay >= call.collateral {
          return call.debt;
        }
      } else {
        cover := cover + d2;
        if cover >= call.debt {
          return call.debt;
        }
        pay := Cost(cover, match_);
        if pay >= call.collateral {
          return call.debt;
        }
        UpIsStable(cover, match_);
        cover := Convert(pay, match_);
        if cover >= call.debt {
          return call.debt;
        }
      }
      if ResultIsGood(call, target, pay, cover) {
        GoodIsNotZero(call, match_, target, cover);
        return cover;
      }
      d1 := d2;
      d2 := d3;
      d3 := d1 + d2;
    }
  }
}
