/** A few facts about products and quotients. */
module Arithmetic {

  /** Quotient and remainder are determined by their defining equation. */
  lemma DivUnique(a: int, m: nat, q: int, r: int)
    requires 0 <= r < m && a == q * m + r
    ensures a / m == q && a % m == r
  {
    var q', r' := a / m, a % m;
    assert a == m * q' + r' && 0 <= r' < m;
    if q < q' {
      assert q' * m == q * m + (q' - q) * m;
      MulAtLeast(q' - q, m);
    } else if q' < q {
      assert q * m == q' * m + (q - q') * m;
      MulAtLeast(q - q', m);
    }
    assert q == q';
    assert q * m == m * q';
  }

  lemma MulAtLeast(a: int, m: nat)
    requires a >= 1
    ensures a * m >= m
  {
  }

  lemma MulMonotone(a: nat, b: nat, x: nat, y: nat)
    requires a <= b && x <= y
    ensures a * x <= b * y
  {
    assert a * x <= a * y;
    assert a * y <= b * y;
  }

  function Times(a: nat, b: nat): nat {
    a * b
  }

  function AtLeastZero(a: int): nat {
    if a < 0 then 0 else a
  }
}
