/** Integer division facts shared by the other modules. */
module Arithmetic {

  function SaturatingSub(a: nat, b: nat): nat {
    if a >= b then a - b else 0
  }

  function Min(a: nat, b: nat): nat {
    if a <= b then a else b
  }

  function Max(a: nat, b: nat): nat {
    if a >= b then a else b
  }

  lemma DivModSum(a: nat, d: nat)
    requires 0 < d
    ensures a == d * (a / d) + a % d
    ensures 0 <= a % d < d
  {
  }

  lemma MulMonotone(d: nat, a: int, b: int)
    requires a <= b
    ensures d * a <= d * b
  {
    assert d * b - d * a == d * (b - a);
  }

  lemma MulStrict(d: nat, a: int, b: int)
    requires a < b
    ensures d * a + d <= d * b
  {
    MulMonotone(d, a + 1, b);
    assert d * (a + 1) == d * a + d;
  }

  /** The quotient is the only multiple count that leaves a small remainder. */
  lemma QuotientUnique(d: nat, p: int, q: int, r: int, s: int)
    requires 0 < d && 0 <= r < d && 0 <= s < d
    requires d * p + r == d * q + s
    ensures p == q
  {
    if p < q {
      MulStrict(d, p, q);
    } else if q < p {
      MulStrict(d, q, p);
    }
  }

  lemma DivMonotone(a: nat, b: nat, d: nat)
    requires a <= b && 0 < d
    ensures a / d <= b / d
  {
    DivModSum(a, d);
    DivModSum(b, d);
    if b / d < a / d {
      MulStrict(d, b / d, a / d);
    }
  }

  lemma DivExact(q: nat, d: nat)
    requires 0 < d
    ensures d * q / d == q
  {
    MulMonotone(d, 0, q);
    DivModSum(d * q, d);
    QuotientUnique(d, d * q / d, q, d * q % d, 0);
  }

  lemma DivIs(a: nat, d: nat, q: nat, r: nat)
    requires r < d && a == d * q + r
    ensures a / d == q
  {
    DivModSum(a, d);
    QuotientUnique(d, a / d, q, a % d, r);
  }

  lemma DivSmall(a: nat, d: nat)
    requires a < d
    ensures a / d == 0
  {
    DivIs(a, d, 0, a);
  }

  /** Flooring two spans separately never yields more than flooring their sum. */
  lemma DivSuperadditive(a: nat, b: nat, d: nat)
    requires 0 < d
    ensures a / d + b / d <= (a + b) / d
  {
    DivModSum(a, d);
    DivModSum(b, d);
    var q := a / d + b / d;
    assert d * q == d * (a / d) + d * (b / d);
    DivMonotone(d * q, a + b, d);
    DivExact(q, d);
  }
}
