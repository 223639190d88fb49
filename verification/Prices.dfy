/** Prices as the source keeps them: an unreduced pair of positive amounts,
    base (the asset sold) over quote (the asset received). */
module Prices {
  import opened Rounding

  datatype Price = Price(base: nat, quote: nat)

  predicate Positive(p: Price) {
    p.base > 0 && p.quote > 0
  }

  /** The operator `~` of the source. */
  function Inverse(p: Price): Price {
    Price(p.quote, p.base)
  }

  /** `p <= q` as fractions base/quote, by cross multiplication. */
  predicate AtMost(p: Price, q: Price) {
    p.base * q.quote <= q.base * p.quote
  }

  predicate Below(p: Price, q: Price) {
    !AtMost(q, p)
  }

  /** `asset * price` for an amount of the base asset: rounded down. */
  function Convert(amount: int, p: Price): (r: int)
    requires amount >= 0 && p.base > 0
    ensures r >= 0
  {
    MulNonNeg(amount, p.quote);
    Floor(amount * p.quote, p.base)
  }

  /** `multiply_and_round_up` for an amount of the base asset. */
  function ConvertUp(amount: int, p: Price): (r: int)
    requires amount >= 0 && p.base > 0
    ensures r >= 0
  {
    MulNonNeg(amount, p.quote);
    Ceil(amount * p.quote, p.base)
  }

  /** `price * ratio` with an exact rational result. */
  function Scale(p: Price, numerator: nat, denominator: nat): (r: Price)
    requires Positive(p) && numerator > 0 && denominator > 0
    ensures Positive(r)
  {
    MulPos(p.base, numerator);
    MulPos(p.quote, denominator);
    Price(p.base * numerator, p.quote * denominator)
  }

  lemma ConvertGalois(amount: int, p: Price, k: int)
    requires amount >= 0 && p.base > 0
    ensures k <= Convert(amount, p) <==> k * p.base <= amount * p.quote
  {
    MulNonNeg(amount, p.quote);
    FloorGalois(amount * p.quote, p.base, k);
  }

  lemma ConvertUpGalois(amount: int, p: Price, k: int)
    requires amount >= 0 && p.base > 0
    ensures ConvertUp(amount, p) <= k <==> amount * p.quote <= k * p.base
  {
    MulNonNeg(amount, p.quote);
    CeilGalois(amount * p.quote, p.base, k);
  }

  lemma AtMostTransitive(p: Price, q: Price, r: Price)
    requires Positive(p) && Positive(q) && Positive(r)
    requires AtMost(p, q) && AtMost(q, r)
    ensures AtMost(p, r)
  {
    Chain(p.base, p.quote, q.quote, q.base, r.quote, r.base);
  }

  /** A larger amount is worth no less, and a higher base/quote price yields no more. */
  lemma ConvertMonotone(amount: int, amount': int, p: Price, q: Price)
    requires 0 <= amount <= amount' && Positive(p) && Positive(q) && AtMost(q, p)
    ensures Convert(amount, p) <= Convert(amount', q)
  {
    var r := Convert(amount, p);
    ConvertGalois(amount, p, r);
    Chain(r, amount, p.base, p.quote, q.base, q.quote);
    MulLe(amount, amount', q.quote);
    ConvertGalois(amount', q, r);
  }

  lemma ConvertUpMonotone(amount: int, amount': int, p: Price, q: Price)
    requires 0 <= amount <= amount' && Positive(p) && Positive(q) && AtMost(q, p)
    ensures ConvertUp(amount, p) <= ConvertUp(amount', q)
  {
    var r := ConvertUp(amount', q);
    ConvertUpGalois(amount', q, r);
    MulLe(amount, amount', q.quote);
    // amount/r <= base/quote of q <= base/quote of p
    Chain(amount, r, q.quote, q.base, p.quote, p.base);
    ConvertUpGalois(amount, p, r);
  }

  /** Converting down and then back up: the least amount that still buys the same.
      What is left over buys nothing. */
  lemma Stabilised(amount: int, p: Price)
    requires amount >= 0 && Positive(p)
    ensures var r := Convert(amount, p);
            var least := ConvertUp(r, Inverse(p));
            && least <= amount
            && Convert(least, p) == r
            && r * p.base <= least * p.quote
            && Convert(amount - least, p) == 0
            && (r > 0 ==> least > 0)
  {
    var r := Convert(amount, p);
    var least := ConvertUp(r, Inverse(p));
    ConvertGalois(amount, p, r);
    ConvertUpGalois(r, Inverse(p), amount);
    ConvertUpGalois(r, Inverse(p), least);
    ConvertGalois(least, p, r);
    ConvertMonotone(least, amount, p, p);
    ConvertGalois(amount, p, r + 1);
    assert (r + 1) * p.base == r * p.base + p.base;
    assert (amount - least) * p.quote == amount * p.quote - least * p.quote;
    ConvertGalois(amount - least, p, 1);
    if r > 0 {
      MulPos(r, p.base);
    }
  }

  /** Converting up and then back down loses nothing. */
  lemma RoundTripUp(amount: int, p: Price)
    requires amount >= 0 && Positive(p)
    ensures amount <= Convert(ConvertUp(amount, p), Inverse(p))
    ensures amount * p.quote <= ConvertUp(amount, p) * p.base
    ensures amount > 0 ==> ConvertUp(amount, p) > 0
  {
    var u := ConvertUp(amount, p);
    ConvertUpGalois(amount, p, u);
    ConvertGalois(u, Inverse(p), amount);
    if amount > 0 {
      MulPos(amount, p.quote);
    }
  }
}
