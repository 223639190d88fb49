/** Integer division rounded down and rounded up, and the inequalities that make
    rounding tractable: `k <= floor(a/b)` and `ceil(a/b) <= k` as products. */
module Rounding {

  /** Rounded down, as `operator*(asset, price)` divides. */
  function Floor(a: int, b: int): (q: int)
    requires a >= 0 && b > 0
    ensures 0 <= q && q * b <= a < q * b + b
  {
    a / b
  }

  /** Rounded up, as `multiply_and_round_up` divides. */
  function Ceil(a: int, b: int): (q: int)
    requires a >= 0 && b > 0
    ensures 0 <= q && q * b - b < a <= q * b
  {
    (a + b - 1) / b
  }

  lemma FloorGalois(a: int, b: int, k: int)
    requires a >= 0 && b > 0
    ensures k <= Floor(a, b) <==> k * b <= a
  {
    var q := Floor(a, b);
    if k <= q {
      assert k * b <= q * b;
    } else {
      assert (q + 1) * b <= k * b;
    }
  }

  lemma CeilGalois(a: int, b: int, k: int)
    requires a >= 0 && b > 0
    ensures Ceil(a, b) <= k <==> a <= k * b
  {
    var q := Ceil(a, b);
    if q <= k {
      assert q * b <= k * b;
    } else {
      assert k * b <= (q - 1) * b;
    }
  }

  /** Quotient and remainder are determined by what they add up to. */
  lemma DivisionIs(n: nat, p: nat, q: nat, r: nat)
    requires p > 0 && n == q * p + r && r < p
    ensures n / p == q && n % p == r
  {
    FloorGalois(n, p, q);
    FloorGalois(n, p, q + 1);
    assert (q + 1) * p == q * p + p;
    assert n / p == Floor(n, p);
  }

  lemma FloorMonotone(a: int, a': int, b: int)
    requires 0 <= a <= a' && b > 0
    ensures Floor(a, b) <= Floor(a', b)
  {
    FloorGalois(a', b, Floor(a, b));
  }

  /** Rounding up loses nothing when a sum is split: the parts cover the whole. */
  lemma CeilSubadditive(x: int, y: int, b: int)
    requires x >= 0 && y >= 0 && b > 0
    ensures Ceil(x + y, b) <= Ceil(x, b) + Ceil(y, b)
  {
    var k := Ceil(x, b) + Ceil(y, b);
    assert k * b == Ceil(x, b) * b + Ceil(y, b) * b;
    CeilGalois(x + y, b, k);
  }

  lemma MulNonNeg(x: int, y: int)
    requires x >= 0 && y >= 0
    ensures x * y >= 0
  {
  }

  lemma MulPos(x: int, y: int)
    requires x > 0 && y > 0
    ensures x * y > 0
  {
  }

  lemma MulLe(x: int, y: int, k: int)
    requires x <= y && k >= 0
    ensures x * k <= y * k
  {
  }

  lemma MulLt(x: int, y: int, k: int)
    requires x < y && k > 0
    ensures x * k < y * k
  {
  }

  /** A common positive factor may be cancelled. */
  lemma Cancel(x: int, y: int, k: int)
    requires k > 0 && x * k <= y * k
    ensures x <= y
  {
    if y < x {
      MulLt(y, x, k);
    }
  }

  lemma CancelStrict(x: int, y: int, k: int)
    requires k > 0 && x * k < y * k
    ensures x < y
  {
    if y < x {
      MulLt(y, x, k);
    }
  }

  /** Chaining of fractions: x/y <= q/b and q/b <= d/c give x/y <= d/c. */
  lemma Chain(x: int, y: int, b: int, q: int, c: int, d: int)
    requires y >= 0 && b > 0 && c >= 0
    requires x * b <= y * q
    requires q * c <= b * d
    ensures x * c <= y * d
  {
    MulLe(x * b, y * q, c);
    MulLe(q * c, b * d, y);
    assert (x * c) * b == x * b * c;
    assert (y * d) * b == b * d * y;
    assert y * q * c == q * c * y;
    Cancel(x * c, y * d, b);
  }
}
