/** The larger and the smaller, powers of two, and dividing naturals where the solver needs to be told which product is meant. */
module Numbers {

  function Max(a: int, b: int): int { if a >= b then a else b }

  function Min(a: int, b: int): int { if a <= b then a else b }

  function Pow2(n: nat): (p: nat)
    ensures p > 0
  {
    if n == 0 then 1 else 2 * Pow2(n - 1)
  }

  function Quotient(v: nat, p: nat): nat
    requires p > 0
  {
    v / p
  }

  lemma Divide(v: nat, p: nat)
    requires p > 0
    ensures v == v % p + p * (v / p)
  {
  }

  lemma Multiples(p: nat, d: int)
    requires p > 0
    ensures d >= 1 ==> p * d >= p
    ensures d <= -1 ==> p * d + p <= 0
  {
  }

  /** A number is divided in one way only. */
  lemma QuotientIs(b: nat, p: nat, q: nat, r: nat)
    requires r < p && b == p * q + r
    ensures b / p == q && b % p == r
  {
    Divide(b, p);
    var d := b / p - q;
    assert p * d == p * (b / p) - p * q;
    Multiples(p, d);
  }
}
