/** The arithmetic of repaying a credit deal. */
module CreditDeals {
  import opened Rounding

  const FEE_RATE_DENOM := 1000000

  /** The fee on a repayment, rounded up. */
  function RequiredFee(amount: nat, feeRate: nat): nat {
    MulNonNeg(amount, feeRate);
    Ceil(amount * feeRate, FEE_RATE_DENOM)
  }

  /** The collateral a repayment releases: all of it with the last of the debt. */
  function Released(debt: nat, collateral: nat, repay: nat): nat
    requires debt > 0
  {
    MulNonNeg(repay, collateral);
    if repay == debt then collateral else Floor(repay * collateral, debt)
  }

  lemma RequiredFeeIs(amount: nat, feeRate: nat)
    ensures var fee := RequiredFee(amount, feeRate);
            (fee - 1) * FEE_RATE_DENOM < amount * feeRate <= fee * FEE_RATE_DENOM
  {
    MulNonNeg(amount, feeRate);
  }

  /** A repayment releases its share of the collateral, rounded down. */
  lemma ReleasedIs(debt: nat, collateral: nat, repay: nat)
    requires debt > 0
    ensures var released := Released(debt, collateral, repay);
            released * debt <= repay * collateral < released * debt + debt
  {
    MulNonNeg(repay, collateral);
  }

  /** A partial repayment releases less than all the collateral, so the assertion on it never
      fails, and what stays is no worse collateralised. */
  lemma PartialRelease(debt: nat, collateral: nat, repay: nat)
    requires 0 < debt && collateral > 0 && repay < debt
    ensures Released(debt, collateral, repay) < collateral
    ensures collateral * (debt - repay) <= (collateral - Released(debt, collateral, repay)) * debt
  {
    var released := Released(debt, collateral, repay);
    MulNonNeg(repay, collateral);
    MulLt(repay, debt, collateral);
    CancelStrict(released, collateral, debt);
    assert collateral * (debt - repay) == collateral * debt - repay * collateral;
    assert (collateral - released) * debt == collateral * debt - released * debt;
  }

  // ----- a deal over all of its repayments -----

  /** Repayments that are each possible in turn and end the deal. */
  predicate Clears(debt: nat, repays: seq<nat>) {
    if repays == [] then debt == 0 else 0 < repays[0] <= debt && Clears(debt - repays[0], repays[1..])
  }

  /** They are positive amounts that add up to the debt. */
  lemma {:induction false} ClearsMeans(debt: nat, repays: seq<nat>)
    ensures Clears(debt, repays) <==>
      (forall i :: 0 <= i < |repays| ==> repays[i] > 0) && Repaid(repays) == debt
    decreases |repays|
  {
    if repays != [] {
      var rest := repays[1..];
      assert forall i :: 0 < i < |repays| ==> repays[i] == rest[i - 1];
      if repays[0] <= debt {
        ClearsMeans(debt - repays[0], rest);
      }
      assert (forall i :: 0 <= i < |repays| ==> repays[i] > 0)
             <==> repays[0] > 0 && forall i :: 0 <= i < |rest| ==> rest[i] > 0;
    }
  }

  function Repaid(repays: seq<nat>): nat {
    if repays == [] then 0 else repays[0] + Repaid(repays[1..])
  }

  function TotalReleased(debt: nat, collateral: nat, repays: seq<nat>): nat
    requires collateral > 0 && Clears(debt, repays)
  {
    if repays == [] then
      0
    else if repays[0] == debt then
      collateral
    else
      PartialRelease(debt, collateral, repays[0]);
      var released := Released(debt, collateral, repays[0]);
      released + TotalReleased(debt - repays[0], collateral - released, repays[1..])
  }

  function TotalFees(repays: seq<nat>, feeRate: nat): nat {
    if repays == [] then 0 else RequiredFee(repays[0], feeRate) + TotalFees(repays[1..], feeRate)
  }

  /** Whatever the repayments, all of the deposit comes back, neither more nor less. */
  lemma {:induction false} DepositComesBack(debt: nat, collateral: nat, repays: seq<nat>)
    requires collateral > 0 && debt > 0 && Clears(debt, repays)
    ensures TotalReleased(debt, collateral, repays) == collateral
    decreases |repays|
  {
    if repays[0] < debt {
      PartialRelease(debt, collateral, repays[0]);
      DepositComesBack(debt - repays[0], collateral - Released(debt, collateral, repays[0]), repays[1..]);
    }
  }

  /** After any number of the repayments the deal has the collateral per debt it started with,
      or more. */
  lemma {:induction false} RatioNeverFalls(debt: nat, collateral: nat, repays: seq<nat>, k: nat)
    requires collateral > 0 && Clears(debt, repays) && k < |repays|
    ensures var (d, c) := After(debt, collateral, repays, k); collateral * d <= c * debt
    decreases k
  {
    if k > 0 {
      RatioNeverFalls(debt, collateral, repays, k - 1);
      var (d, c) := After(debt, collateral, repays, k - 1);
      NotTheLast(d, repays[k - 1..]);
      RatioStep(debt, collateral, d, c, repays[k - 1]);
    }
  }

  lemma RatioStep(debt: nat, collateral: nat, d: nat, c: nat, repay: nat)
    requires 0 < d && c > 0 && repay < d && collateral * d <= c * debt
    ensures collateral * (d - repay) <= (c - Released(d, c, repay)) * debt
  {
    PartialRelease(d, c, repay);
    // collateral/debt <= c/d <= what is left
    Chain(collateral, debt, d, c, d - repay, c - Released(d, c, repay));
  }

  /** Debt and collateral left after the first `k` repayments, which do not end the deal. */
  function After(debt: nat, collateral: nat, repays: seq<nat>, k: nat): (r: (nat, nat))
    requires collateral > 0 && Clears(debt, repays) && k < |repays|
    ensures r.0 > 0 && r.1 > 0 && Clears(r.0, repays[k..])
  {
    if k == 0 then
      (debt, collateral)
    else
      var (d, c) := After(debt, collateral, repays, k - 1);
      assert repays[k - 1..][1..] == repays[k..];
      NotTheLast(d, repays[k - 1..]);
      PartialRelease(d, c, repays[k - 1]);
      (d - repays[k - 1], c - Released(d, c, repays[k - 1]))
  }

  lemma NotTheLast(debt: nat, repays: seq<nat>)
    requires |repays| > 1 && Clears(debt, repays)
    ensures repays[0] < debt && Clears(debt - repays[0], repays[1..])
  {
    assert 0 < repays[1..][0] <= debt - repays[0];
  }

  /** Splitting a repayment never saves fees. */
  lemma {:induction false} FeesCoverTheWhole(debt: nat, repays: seq<nat>, feeRate: nat)
    requires Clears(debt, repays)
    ensures TotalFees(repays, feeRate) >= RequiredFee(debt, feeRate)
    decreases |repays|
  {
    if repays != [] {
      var first, rest := repays[0], debt - repays[0];
      FeesCoverTheWhole(rest, repays[1..], feeRate);
      MulNonNeg(first, feeRate);
      MulNonNeg(rest, feeRate);
      CeilSubadditive(first * feeRate, rest * feeRate, FEE_RATE_DENOM);
      assert first * feeRate + rest * feeRate == debt * feeRate;
    }
  }

  // ----- automatic repayment with what the borrower has -----

  /** How much debt a balance repays together with its fee; and then the least debt that
      releases as much collateral. */
  function AffordableDebt(balance: nat, feeRate: nat): nat {
    Floor(balance * FEE_RATE_DENOM, FEE_RATE_DENOM + feeRate)
  }

  function AutoRepay(balance: nat, feeRate: nat, debt: nat, collateral: nat): nat
    requires debt > 0 && collateral > 0
  {
    var affordable := AffordableDebt(balance, feeRate);
    MulNonNeg(affordable, collateral);
    var release := Floor(affordable * collateral, debt);
    MulNonNeg(release, debt);
    Ceil(release * debt, collateral)
  }

  lemma AffordableWithFee(balance: nat, feeRate: nat, amount: nat)
    ensures amount <= AffordableDebt(balance, feeRate) <==> amount + RequiredFee(amount, feeRate) <= balance
  {
    var D := FEE_RATE_DENOM;
    FloorGalois(balance * D, D + feeRate, amount);
    MulNonNeg(amount, feeRate);
    CeilGalois(amount * feeRate, D, balance - amount);
    assert amount * (D + feeRate) == amount * D + amount * feeRate;
    assert (balance - amount) * D == balance * D - amount * D;
  }

  /** An automatic partial repayment is always affordable, leaves some debt, and pays for
      exactly the collateral that the affordable debt would release. */
  lemma AutoRepayIsAffordable(balance: nat, feeRate: nat, debt: nat, collateral: nat)
    requires debt > 0 && collateral > 0
    requires balance < debt + RequiredFee(debt, feeRate)
    ensures var repay := AutoRepay(balance, feeRate, debt, collateral);
            && repay + RequiredFee(repay, feeRate) <= balance
            && repay <= AffordableDebt(balance, feeRate) < debt
            && Released(debt, collateral, repay) == Released(debt, collateral, AffordableDebt(balance, feeRate))
            && (forall less: nat ::
                  less < repay ==> Released(debt, collateral, less) < Released(debt, collateral, repay))
  {
    var affordable := AffordableDebt(balance, feeRate);
    AffordableWithFee(balance, feeRate, debt);
    MulNonNeg(affordable, collateral);
    var release := Floor(affordable * collateral, debt);
    MulNonNeg(release, debt);
    CeilGalois(release * debt, collateral, affordable);
    var repay := AutoRepay(balance, feeRate, debt, collateral);
    AffordableWithFee(balance, feeRate, repay);
    MulNonNeg(repay, collateral);
    FloorGalois(repay * collateral, debt, release);
    MulLe(repay, affordable, collateral);
    FloorMonotone(repay * collateral, affordable * collateral, debt);
    forall less: nat | less < repay
      ensures Released(debt, collateral, less) < release
    {
      MulNonNeg(less, collateral);
      CeilGalois(release * debt, collateral, less);
      FloorGalois(less * collateral, debt, release);
    }
  }
}
