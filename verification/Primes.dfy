/** Trial division as in inf19-1.c, and the ascending list of primes it is used for. */
module Primes {
  import opened Arithmetic

  predicate Prime(n: int) {
    2 <= n && forall d | 2 <= d < n :: n % d != 0
  }

  /** In other words, of two factors of a prime one is 1 ... */
  lemma PrimeHasNoFactors(n: nat, a: nat, b: nat)
    requires Prime(n) && n == a * b
    ensures n >= 2 && (a == 1 || b == 1)
  {
    if a != 1 && b != 1 {
      FactorsAreSmaller(n, a, b);
      DivUnique(n, b, a, 0);
    }
  }

  lemma FactorsAreSmaller(n: nat, a: nat, b: nat)
    requires n == a * b && n > 0 && a != 1 && b != 1
    ensures 2 <= b < n
  {
    assert a > 0 && b > 0;
    MulMonotone(2, a, b, b);
  }

  /** ... and any other number from 2 on has two factors neither of which is 1. */
  lemma CompositeHasFactors(n: nat) returns (a: nat, b: nat)
    requires n >= 2 && !Prime(n)
    ensures n == a * b && a >= 2 && b >= 2
  {
    b :| 2 <= b < n && n % b == 0;
    a := n / b;
    assert n == b * a;
    assert a != 0 && a != 1;
  }

  /** The integer part of the square root. */
  function Root(n: nat): (r: nat)
    ensures r * r <= n < (r + 1) * (r + 1)
  {
    if n == 0 then 0
    else
      var r := Root(n-1);
      if (r + 1) * (r + 1) <= n then r + 1 else r
  }

  /** What is_prime answers: it takes 0 for a prime, because its loop is empty there. */
  predicate Accepted(n: nat) {
    n == 0 || Prime(n)
  }

  /** A composite number has a divisor that is at most its root. */
  lemma SmallDivisor(n: nat, d: nat) returns (e: nat)
    requires 2 <= d < n && n % d == 0
    ensures 2 <= e <= Root(n) && n % e == 0
  {
    var q, r := n / d, Root(n);
    assert n == q * d;
    if d <= r {
      e := d;
    } else {
      e := q;
      CofactorIsSmall(n, d, q, r);
      DivUnique(n, q, d, 0);
    }
  }

  lemma CofactorIsSmall(n: nat, d: nat, q: nat, r: nat)
    requires n == q * d && d < n && n < (r + 1) * (r + 1) && r < d
    ensures 2 <= q <= r
  {
    if q > r {
      MulMonotone(r + 1, q, r + 1, d);
    }
    assert q == 1 ==> q * d == d;
  }

  lemma RootIsSmaller(n: nat)
    requires n >= 2
    ensures Root(n) < n
  {
    if Root(n) >= n {
      MulMonotone(2, Root(n), n, Root(n));
    }
  }

  method IsPrime(number: nat) returns (answer: int)
    ensures answer == if number == 0 || Prime(number) then 1 else 0
  {
    if number == 1 {
      return 0;
    }
    if number == 2 {
      return 1;
    }
    var max := Root(number) + 1;
    if number > 0 {
      RootIsSmaller(number);
    }
    var i := 2;
    while i < max
      invariant 2 <= i
      invariant forall d | 2 <= d < i && d < max :: number % d != 0
    {
      if number % i == 0 {
        return 0;
      }
      i := i + 1;
    }
    if number > 2 && !Prime(number) {
      var d: nat :| 2 <= d < number && number % d == 0;
      var e := SmallDivisor(number, d);
    }
    return 1;
  }

  /** The primes p with low <= p < high, ascending. */
  function PrimesIn(low: int, high: int): (r: seq<int>)
    decreases high - low
  {
    if high <= low then []
    else PrimesIn(low, high-1) + if Prime(high-1) then [high-1] else []
  }

  /** PrimesIn is complete, correct and strictly ascending. */
  lemma {:induction false} PrimesInAre(low: int, high: int)
    ensures forall x :: x in PrimesIn(low, high) <==> low <= x < high && Prime(x)
    ensures forall a, b | 0 <= a < b < |PrimesIn(low, high)| :: PrimesIn(low, high)[a] < PrimesIn(low, high)[b]
    decreases high - low
  {
    if low < high {
      PrimesInAre(low, high-1);
      var init := PrimesIn(low, high-1);
      forall a | 0 <= a < |init| ensures init[a] < high - 1 {
        assert init[a] in init;
      }
    }
  }

  lemma {:induction false} PrimesInGrow(low: int, mid: int, high: int)
    requires mid <= high
    ensures PrimesIn(low, mid) <= PrimesIn(low, high)
    decreases high - mid
  {
    if mid < high {
      PrimesInGrow(low, mid, high-1);
    }
  }
}
