/**
 What the operators of MpzExpr compute, in terms that do not depend on how they are
 defined there: bits of two's complement for the logical operators, bounds for shifts,
 roots and truncation, divisibility for gcd and lcm.
 */
module MpzLaws {
  import opened Arithmetic
  import opened MpzExpr

  // ----- bits determine an integer -----

  ghost predicate SameBits(a: int, b: int) {
    forall k: nat :: BitAt(a, k) == BitAt(b, k)
  }

  /** Two integers with the same bits are equal, so the laws on bits leave no freedom. */
  lemma {:induction false} BitsDetermine(a: int, b: int)
    requires SameBits(a, b)
    ensures a == b
    decreases Abs(a) + Abs(b)
  {
    assert BitAt(a, 0) == BitAt(b, 0);
    if !(-1 <= a <= 0 && -1 <= b <= 0) {
      forall k: nat ensures BitAt(a / 2, k) == BitAt(b / 2, k) {
        assert BitAt(a, k + 1) == BitAt(b, k + 1);
      }
      BitsDetermine(a / 2, b / 2);
    }
  }

  lemma {:induction false} BitIsBit(a: int, k: nat)
    ensures BitAt(a, k) == 0 || BitAt(a, k) == 1
    decreases k
  {
    if k > 0 {
      BitIsBit(a / 2, k-1);
    }
  }

  /** `~` inverts every bit. */
  lemma {:induction false} ComFlips(a: int, k: nat)
    ensures BitAt(ApplyUnary(Com, a), k) == 1 - BitAt(a, k)
    decreases k
  {
    if k > 0 {
      assert (-a - 1) / 2 == -(a / 2) - 1;
      ComFlips(a / 2, k-1);
    }
  }

  /** `&`, `|` and `^` act on each bit: both, at least one, exactly one. */
  lemma LogicalBits(a: int, b: int, k: nat)
    ensures BitAt(Apply(And, a, b), k) == 1 <==> BitAt(a, k) == 1 && BitAt(b, k) == 1
    ensures BitAt(Apply(Ior, a, b), k) == 1 <==> BitAt(a, k) == 1 || BitAt(b, k) == 1
    ensures BitAt(Apply(Xor, a, b), k) == 1 <==> BitAt(a, k) != BitAt(b, k)
  {
    BitIsBit(a, k);
    BitIsBit(b, k);
    BitwiseAt(BitAnd, a, b, k);
    BitwiseAt(BitIor, a, b, k);
    BitwiseAt(BitXor, a, b, k);
  }

  // ----- shifts -----

  /** A shift to the left doubles once for each place ... */
  lemma LeftShiftDoubles(a: int, n: nat)
    ensures ApplyShift(LeftShift, a, 0) == a
    ensures ApplyShift(LeftShift, a, n + 1) == 2 * ApplyShift(LeftShift, a, n)
  {
    assert a * (2 * Pow2(n)) == 2 * (a * Pow2(n));
  }

  /** ... and a shift to the right is the floor of the quotient: it shifts back to a or below. */
  lemma RightShiftFloors(a: int, n: nat)
    ensures var r := ApplyShift(RightShift, a, n);
      ApplyShift(LeftShift, r, n) <= a < ApplyShift(LeftShift, r + 1, n)
  {
    Floors(a, Pow2(n), a / Pow2(n));
  }

  lemma Floors(a: int, p: nat, r: int)
    requires p > 0 && r == a / p
    ensures r * p <= a < (r + 1) * p
  {
    assert a == p * r + a % p;
    assert (r + 1) * p == r * p + p;
  }

  lemma HalfOfProduct(a: int, p: nat)
    ensures (a * (2 * p)) / 2 == a * p && (a * (2 * p)) % 2 == 0
  {
    assert a * (2 * p) == 2 * (a * p);
  }

  /** The bits move up by n places, and zeros follow them. */
  lemma {:induction false} LeftShiftBits(a: int, n: nat, k: nat)
    ensures BitAt(ApplyShift(LeftShift, a, n), k + n) == BitAt(a, k)
    ensures k < n ==> BitAt(ApplyShift(LeftShift, a, n), k) == 0
    decreases n
  {
    if n > 0 {
      HalfOfProduct(a, Pow2(n-1));
      LeftShiftBits(a, n-1, k);
      if 0 < k < n {
        LeftShiftBits(a, n-1, k-1);
      }
    }
  }

  lemma HalvesFirst(a: int, p: nat)
    requires p > 0
    ensures a / (2 * p) == (a / 2) / p
  {
    var h, q, r := a / 2, (a / 2) / p, (a / 2) % p;
    assert h == p * q + r;
    assert a == q * (2 * p) + (2 * r + a % 2) by {
      assert q * (2 * p) == 2 * (p * q);
    }
    DivUnique(a, 2 * p, q, 2 * r + a % 2);
  }

  /** The lowest n bits are dropped, also those of a negative number. */
  lemma {:induction false} RightShiftBits(a: int, n: nat, k: nat)
    ensures BitAt(ApplyShift(RightShift, a, n), k) == BitAt(a, k + n)
    decreases n
  {
    if n > 0 {
      HalvesFirst(a, Pow2(n-1));
      RightShiftBits(a / 2, n-1, k);
    }
  }

  // ----- unary operators and operands -----

  /** Sign, absolute value and the integer root, which exists exactly when there is no fault. */
  lemma UnaryLaws(a: int)
    ensures ApplyUnary(UnaryPlus, a) == a && ApplyUnary(UnaryMinus, a) + a == 0
    ensures ApplyUnary(Absolute, a) >= 0
    ensures ApplyUnary(Absolute, a) == a || ApplyUnary(Absolute, a) + a == 0
    ensures forall op :: UnaryFaults(op, a) <==> op == Sqrt && !exists r: int :: r * r <= a
    ensures var r := ApplyUnary(Sqrt, a);
      !UnaryFaults(Sqrt, a) ==> r >= 0 && r * r <= a < (r + 1) * (r + 1)
  {
    if a >= 0 {
      assert 0 * 0 <= a;
    } else {
      forall r: int ensures r * r > a {
        SquareIsNat(r);
      }
    }
  }

  lemma SquareIsNat(r: int)
    ensures r * r >= 0
  {
  }

  /** A long enters as it is; a double loses its fraction, towards zero. */
  lemma Truncates(u: ULong, s: Long, d: real)
    ensures Number(UL(u)) == u && Number(SL(s)) == s
    ensures var n := Number(D(d)) as real;
      (0.0 <= n <= d || d <= n <= 0.0) && -1.0 < d - n < 1.0
  {
  }

  // ----- arithmetic -----

  /** Sum, difference and product; quotient towards zero with the remainder that belongs to it. */
  lemma FourOperations(a: int, b: int)
    ensures Apply(Plus, a, b) == a + b && Apply(Minus, a, b) + b == a && Apply(Multiplies, a, b) == a * b
    ensures b != 0 ==>
      var q, r := Apply(Divides, a, b), Apply(Modulus, a, b);
      a == b * q + r && (-b < r < b || b < r < -b) && (a >= 0 ==> r >= 0) && (a <= 0 ==> r <= 0)
  {
    if b != 0 {
      QuotRem(a, b);
    }
  }

  /** A division faults without a divisor, or when the quotient of two longs is not a long. */
  lemma FaultMeans(op: BinaryOp, l: Builtin, b: int)
    ensures !(op == Divides || op == Modulus) ==> !LeftFaults(op, l, b)
    ensures op == Divides || op == Modulus ==>
      (LeftFaults(op, l, b) <==>
        b == 0 || (l.SL? && !(-0x8000_0000 <= Apply(Divides, l.s, b) <= 0x7FFF_FFFF)))
  {
    if l.SL? && b != 0 {
      var s: int := l.s;
      SmallerQuotient(Abs(s), Abs(b));
      assert Quot(s, b) == Abs(s) / Abs(b) || Quot(s, b) == -(Abs(s) / Abs(b));
    }
  }

  // ----- gcd and lcm of any integers -----

  lemma Signed(a: int, x: nat, g: nat) returns (y: int)
    requires Abs(a) == x * g
    ensures a == y * g
  {
    y := x;
    if a < 0 {
      y := -y;
      SignedProduct(x, g);
    }
  }

  lemma SignedFactor(a: int, d: int, x: int)
    requires a == d * x
    ensures Abs(a) == Abs(d) * Abs(x)
  {
    SignedProduct(d, x);
    ProductNat(Abs(d), Abs(x));
  }

  lemma SignedMultiple(m: nat, a: int, x: nat) returns (y: int)
    requires m == Abs(a) * x
    ensures m == a * y
  {
    y := x;
    if a < 0 {
      y := -y;
      SignedProduct(a, x);
    }
  }

  /** gcd divides both operands ... */
  lemma GcdDivides(a: int, b: int) returns (x: int, y: int)
    ensures Apply(Gcd, a, b) >= 0
    ensures a == x * Apply(Gcd, a, b) && b == y * Apply(Gcd, a, b)
  {
    var u, v := DivisorDivides(Abs(a), Abs(b));
    x := Signed(a, u, Divisor(Abs(a), Abs(b)));
    y := Signed(b, v, Divisor(Abs(a), Abs(b)));
  }

  /** ... and is divided by whatever divides both. */
  lemma GcdIsGreatest(a: int, b: int, d: int, x: int, y: int) returns (k: int)
    requires a == d * x && b == d * y
    ensures Apply(Gcd, a, b) == d * k
  {
    if d == 0 {
      k := 0;
    } else {
      SignedFactor(a, d, x);
      SignedFactor(b, d, y);
      var j := DivisorIsGreatest(Abs(a), Abs(b), Abs(d), Abs(x), Abs(y));
      k := SignedMultiple(Apply(Gcd, a, b), d, j);
    }
  }

  /** lcm is a multiple of both operands, and 0 only when one of them is ... */
  lemma LcmIsCommon(a: int, b: int) returns (x: int, y: int)
    ensures Apply(Lcm, a, b) >= 0 && (Apply(Lcm, a, b) == 0 <==> a == 0 || b == 0)
    ensures Apply(Lcm, a, b) == a * x && Apply(Lcm, a, b) == b * y
  {
    if a == 0 || b == 0 {
      x, y := 0, 0;
    } else {
      var v, u := MultipleIsCommon(Abs(a), Abs(b));
      x := SignedMultiple(Multiple(Abs(a), Abs(b)), a, u);
      y := SignedMultiple(Multiple(Abs(a), Abs(b)), b, v);
    }
  }

  /** ... and divides every common multiple. */
  lemma LcmIsLeast(a: int, b: int, m: int, s: int, t: int) returns (k: int)
    requires m == a * s && m == b * t
    ensures m == Apply(Lcm, a, b) * k
  {
    if a == 0 || b == 0 {
      k := 0;
    } else {
      SignedFactor(m, a, s);
      SignedFactor(m, b, t);
      var j := MultipleIsLeast(Abs(a), Abs(b), Abs(m), Abs(s), Abs(t));
      k := j;
      if m < 0 {
        k := -k;
        SignedProduct(Multiple(Abs(a), Abs(b)), j);
      }
    }
  }

  // ----- trees -----

  /** Which operand is which: a difference plus what was subtracted is what it was subtracted from. */
  lemma TreeLaws(e1: Expr, e2: Expr, l: Builtin, n: nat)
    ensures Value(Binary(Minus, e1, e2)) + Value(e2) == Value(e1)
    ensures Value(BuiltinRight(Minus, e1, l)) + Number(l) == Value(e1)
    ensures Value(BuiltinLeft(Minus, l, e1)) + Value(e1) == Number(l)
    ensures Value(Unary(UnaryMinus, e1)) + Value(e1) == 0
    ensures Value(Shift(LeftShift, e1, n + 1)) == 2 * Value(Shift(LeftShift, e1, n))
    ensures Safe(Binary(Divides, e1, e2)) <==> Safe(e1) && Safe(e2) && Value(e2) != 0
  {
    LeftShiftDoubles(Value(e1), n);
  }
}
