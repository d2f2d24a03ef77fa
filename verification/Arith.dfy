/** The few facts about products and Euclidean division that the solver needs spelled out. */
module Arith {

  lemma MulMonotone(m: nat, a: int, b: int)
    requires a <= b
    ensures m * a <= m * b
  {
  }

  lemma Distribute(m: int, a: int, b: int)
    ensures m * (a + b) == m * a + m * b
  {
  }

  /** Quotient and remainder are determined by their defining equation. */
  lemma DivModUnique(a: int, m: nat, q: int, r: int)
    requires m > 0 && a == m * q + r && 0 <= r < m
    ensures a / m == q && a % m == r
  {
    var q', r' := a / m, a % m;
    assert a == m * q' + r';
    if q < q' {
      MulMonotone(m, q + 1, q');
      Distribute(m, q, 1);
    } else if q' < q {
      MulMonotone(m, q' + 1, q);
      Distribute(m, q', 1);
    }
  }

  /** Multiples of the modulus do not change the remainder. */
  lemma ModAddMultiple(q: int, r: int, m: nat)
    requires m > 0
    ensures (m * q + r) % m == r % m
    ensures (m * q + r) / m == q + r / m
  {
    Distribute(m, q, r / m);
    DivModUnique(m * q + r, m, q + r / m, r % m);
  }

  /** Division by a symbolic divisor, with the facts about it attached. */
  function Quotient(x: nat, m: nat): (q: nat)
    requires m > 0
    ensures q <= x && m * q <= x < m * q + m
  {
    QuotientFacts(x, m);
    x / m
  }

  lemma QuotientFacts(x: nat, m: nat)
    requires m > 0
    ensures 0 <= x / m <= x && m * (x / m) <= x < m * (x / m) + m
  {
    var q := x / m;
    assert x == m * q + x % m;
    if q < 0 { MulMonotone(m, q, -1); }
    if q > x { MulMonotone(m, x + 1, q); MulMonotone(x + 1, 1, m); }
  }

  lemma SmallMod(a: nat, m: nat)
    requires a < m
    ensures a % m == a && a / m == 0
  {
    DivModUnique(a, m, 0, a);
  }
}
