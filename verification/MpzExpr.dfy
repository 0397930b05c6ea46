/**
 Expression trees of gmpxx.h over mpz_class variables.  `Eval` writes the value of a tree
 into a destination that may itself be one or many of the leaves; its cases are the
 specialisations of __gmp_expr whose operands have the same type.  A division by zero, an
 overflowing division of longs or the root of a negative number stops the program; `ok`
 tells that none of them happened.
 */
module MpzExpr {
  import opened Arithmetic
  import Primes

  /** An mpz_t: one unbounded integer, updated in place. */
  class Mpz {
    var value: int

    constructor (value: int)
      ensures this.value == value
    {
      this.value := value;
    }
  }

  // ----- the built-in operands: 32-bit longs -----

  const ULONG_MAX := 0xFFFF_FFFF
  const LONG_MAX := 0x7FFF_FFFF
  const LONG_MIN := -0x8000_0000

  type ULong = x: int | 0 <= x <= 0xFFFF_FFFF
  type Long = x: int | -0x8000_0000 <= x <= 0x7FFF_FFFF

  /** D is a finite double, which enters an integer expression without its fraction. */
  datatype Builtin = UL(u: ULong) | SL(s: Long) | D(d: real)

  function Number(l: Builtin): int {
    match l
    case UL(u) => u
    case SL(s) => s
    case D(d) => if d >= 0.0 then d.Floor else -(-d).Floor
  }

  // ----- division towards zero, as in C and in mpz_tdiv -----

  function Abs(a: int): nat {
    if a < 0 then -a else a
  }

  function Quot(a: int, b: int): int {
    if b == 0 then 0
    else if (a >= 0) == (b > 0) then Abs(a) / Abs(b)
    else -(Abs(a) / Abs(b))
  }

  function Rem(a: int, b: int): int {
    if b == 0 then 0
    else if a >= 0 then Abs(a) % Abs(b)
    else -(Abs(a) % Abs(b))
  }

  /** Quotient towards zero, remainder smaller than the divisor and with the sign of the dividend. */
  lemma QuotRem(a: int, b: int)
    requires b != 0
    ensures a == b * Quot(a, b) + Rem(a, b)
    ensures Abs(Rem(a, b)) < Abs(b) && (Rem(a, b) != 0 ==> (Rem(a, b) > 0 <==> a > 0))
  {
    var q, r := QuotRemParts(a, b);
    Signs(a, b, q, r, Quot(a, b), Rem(a, b));
  }

  lemma QuotRemParts(a: int, b: int) returns (q: int, r: int)
    requires b != 0
    ensures 0 <= q && 0 <= r < Abs(b) && Abs(a) == Abs(b) * q + r
    ensures Quot(a, b) == if (a >= 0) == (b > 0) then q else -q
    ensures Rem(a, b) == if a >= 0 then r else -r
  {
    q, r := Abs(a) / Abs(b), Abs(a) % Abs(b);
    EuclidAbs(Abs(a), Abs(b));
  }

  lemma Signs(a: int, b: int, q: int, r: int, quot: int, rem: int)
    requires b != 0 && 0 <= q && 0 <= r < Abs(b) && Abs(a) == Abs(b) * q + r
    requires quot == if (a >= 0) == (b > 0) then q else -q
    requires rem == if a >= 0 then r else -r
    ensures a == b * quot + rem && Abs(rem) < Abs(b) && (rem != 0 ==> (rem > 0 <==> a > 0))
  {
    SignedProduct(Abs(b), q);
    ProductNat(Abs(b), q);
  }

  lemma ProductNat(x: nat, y: nat)
    ensures x * y >= 0
  {
  }

  lemma EuclidAbs(a: nat, x: nat)
    requires x > 0
    ensures a == x * (a / x) + a % x && 0 <= a % x < x
  {
  }

  lemma SignedProduct(x: int, q: int)
    ensures (-x) * q == -(x * q) && x * (-q) == -(x * q) && (-x) * (-q) == x * q
  {
  }

  /** The quotient of two longs is a long, with one exception. */
  lemma LongQuotient(a: Long, b: Long)
    requires b != 0
    ensures LONG_MIN <= Quot(a, b) <= LONG_MAX <==> !(a == LONG_MIN && b == -1)
  {
    var q := Abs(a) / Abs(b);
    SmallerQuotient(Abs(a), Abs(b));
  }

  lemma SmallerQuotient(a: nat, b: nat)
    requires b > 0
    ensures a / b <= a && (b >= 2 ==> 2 * (a / b) <= a) && (b == 1 ==> a / b == a)
  {
    assert a == b * (a / b) + a % b;
    if b >= 2 {
      MulMonotone(2, b, a / b, a / b);
    }
  }

  // ----- bits of integers in two's complement, and common divisors -----

  datatype BitOp = BitAnd | BitIor | BitXor

  function Bit(op: BitOp, a: int, b: int): int {
    match op
    case BitAnd => if a == 1 && b == 1 then 1 else 0
    case BitIor => if a == 1 || b == 1 then 1 else 0
    case BitXor => if a != b then 1 else 0
  }

  /** The last bits are combined and the rest likewise, down to 0 or -1, whose bits are all alike. */
  function Bitwise(op: BitOp, a: int, b: int): int
    decreases Abs(a) + Abs(b)
  {
    if -1 <= a <= 0 && -1 <= b <= 0 then -Bit(op, -a, -b)
    else 2 * Bitwise(op, a / 2, b / 2) + Bit(op, a % 2, b % 2)
  }

  lemma {:induction false} BitwiseCommutes(op: BitOp, a: int, b: int)
    ensures Bitwise(op, a, b) == Bitwise(op, b, a)
    decreases Abs(a) + Abs(b)
  {
    if !(-1 <= a <= 0 && -1 <= b <= 0) {
      BitwiseCommutes(op, a / 2, b / 2);
    }
  }

  /** Combining keeps each single bit: bit k of the result is the combination of the bits k. */
  lemma {:induction false} BitwiseAt(op: BitOp, a: int, b: int, k: nat)
    ensures BitAt(Bitwise(op, a, b), k) == Bit(op, BitAt(a, k), BitAt(b, k))
    decreases k
  {
    var r := Bitwise(op, a, b);
    if -1 <= a <= 0 && -1 <= b <= 0 {
      AllAlike(a, k);
      AllAlike(b, k);
      AllAlike(r, k);
    } else if k > 0 {
      BitwiseAt(op, a / 2, b / 2, k-1);
      assert r / 2 == Bitwise(op, a / 2, b / 2);
    }
  }

  /** Bit k of a number in two's complement. */
  function BitAt(a: int, k: nat): int
    decreases k
  {
    if k == 0 then a % 2 else BitAt(a / 2, k-1)
  }

  lemma {:induction false} AllAlike(a: int, k: nat)
    requires -1 <= a <= 0
    ensures BitAt(a, k) == -a
    decreases k
  {
    if k > 0 {
      AllAlike(a, k-1);
    }
  }

  function Divisor(a: nat, b: nat): nat
    decreases b
  {
    if b == 0 then a else Divisor(b, a % b)
  }

  lemma DivisorCommutes(a: nat, b: nat)
    ensures Divisor(a, b) == Divisor(b, a)
  {
    if 0 < a < b {
      DivUnique(a, b, 0, a);
    } else if 0 < b < a {
      DivUnique(b, a, 0, b);
    }
  }

  /** One step of the recursion, without division. */
  lemma DivisorStep(a: nat, b: nat) returns (q: nat, r: nat)
    requires b > 0
    ensures a == b * q + r && r < b && Divisor(a, b) == Divisor(b, r)
  {
    q, r := a / b, a % b;
    EuclidAbs(a, b);
  }

  /** It divides both numbers ... */
  lemma {:induction false} DivisorDivides(a: nat, b: nat) returns (x: nat, y: nat)
    ensures a == x * Divisor(a, b) && b == y * Divisor(a, b)
    decreases b
  {
    if b == 0 {
      x, y := 1, 0;
    } else {
      var q, r := DivisorStep(a, b);
      var u, v := DivisorDivides(b, r);
      x := Recombine(a, b, q, r, u, v, Divisor(b, r));
      y := u;
    }
  }

  lemma Recombine(a: nat, b: nat, q: nat, r: nat, u: nat, v: nat, g: nat) returns (x: nat)
    requires a == b * q + r && b == u * g && r == v * g
    ensures a == x * g
  {
    x := q * u + v;
    assert b * q == (q * u) * g;
    assert (q * u + v) * g == (q * u) * g + v * g;
  }

  /** ... it is a combination of them ... */
  lemma {:induction false} DivisorCombines(a: nat, b: nat) returns (u: int, v: int)
    ensures Divisor(a, b) == u * a + v * b
    decreases b
  {
    if b == 0 {
      u, v := 1, 0;
    } else {
      var q, r := DivisorStep(a, b);
      var u', v' := DivisorCombines(b, r);
      u, v := v', u' - v' * q;
      CombineStep(a, b, q, r, u', v');
    }
  }

  lemma CombineStep(a: int, b: int, q: int, r: int, u: int, v: int)
    requires a == b * q + r
    ensures u * b + v * r == v * a + (u - v * q) * b
  {
    assert v * a == v * (b * q) + v * r;
    assert (u - v * q) * b == u * b - (v * q) * b;
    assert v * (b * q) == (v * q) * b;
  }

  /** ... and so every common divisor divides it. */
  lemma DivisorIsGreatest(a: nat, b: nat, d: nat, x: nat, y: nat) returns (k: nat)
    requires d > 0 && a == d * x && b == d * y
    ensures Divisor(a, b) == d * k
  {
    var u, v := DivisorCombines(a, b);
    var w := u * x + v * y;
    Factor(u, v, d, x, y);
    FactorIsNat(d, w);
    k := w;
  }

  lemma Factor(u: int, v: int, d: int, x: int, y: int)
    ensures u * (d * x) + v * (d * y) == d * (u * x + v * y)
  {
    assert u * (d * x) == d * (u * x);
    assert v * (d * y) == d * (v * y);
  }

  lemma FactorIsNat(d: nat, w: int)
    requires d > 0 && d * w >= 0
    ensures w >= 0
  {
  }

  /** The least common multiple of two positive numbers. */
  function Multiple(a: nat, b: nat): nat {
    if Divisor(a, b) == 0 then 0 else a * b / Divisor(a, b)
  }

  /** Both numbers divide it ... */
  lemma MultipleIsCommon(a: nat, b: nat) returns (x: nat, y: nat)
    requires a > 0 && b > 0
    ensures Multiple(a, b) == a * y && Multiple(a, b) == b * x
    ensures a * b == Multiple(a, b) * Divisor(a, b) && Divisor(a, b) > 0 && Multiple(a, b) > 0
  {
    x, y := DivisorDivides(a, b);
    var g := Divisor(a, b);
    MultipleParts(a, b, g, x, y);
    DivUnique(a * b, g, a * y, 0);
  }

  lemma MultipleParts(a: nat, b: nat, g: nat, x: nat, y: nat)
    requires a > 0 && b > 0 && a == x * g && b == y * g
    ensures g > 0 && a * b == (a * y) * g && a * y == b * x && a * y > 0
  {
    assert g > 0 && y > 0;
    assert a * (y * g) == (a * y) * g;
    assert (x * g) * y == (y * g) * x;
    MulAtLeast(a, y);
  }

  /** ... and it divides every common multiple. */
  lemma MultipleIsLeast(a: nat, b: nat, m: nat, s: nat, t: nat) returns (k: nat)
    requires a > 0 && b > 0 && m == a * s && m == b * t
    ensures m == Multiple(a, b) * k
  {
    var x, y := MultipleIsCommon(a, b);
    var u, v := DivisorCombines(a, b);
    var g, l, w := Divisor(a, b), Multiple(a, b), u * t + v * s;
    Spread(a, b, u, v, s, t, m, g);
    CancelRight(m, l, w, g, a * b);
    FactorIsNat(l, w);
    k := w;
  }

  lemma Spread(a: int, b: int, u: int, v: int, s: int, t: int, m: int, g: int)
    requires g == u * a + v * b && m == a * s && m == b * t
    ensures m * g == (a * b) * (u * t + v * s)
  {
    assert m * g == m * (u * a) + m * (v * b);
    assert m * (u * a) == (b * t) * (u * a) == (a * b) * (u * t);
    assert m * (v * b) == (a * s) * (v * b) == (a * b) * (v * s);
    assert (a * b) * (u * t + v * s) == (a * b) * (u * t) + (a * b) * (v * s);
  }

  lemma CancelRight(m: int, l: int, w: int, g: int, ab: int)
    requires g > 0 && ab == l * g && m * g == ab * w
    ensures m == l * w
  {
    assert (l * g) * w == (l * w) * g;
    assert (m - l * w) * g == 0;
  }

  // ----- expressions -----

  datatype UnaryOp = UnaryPlus | UnaryMinus | Com | Absolute | Sqrt
  datatype BinaryOp = Plus | Minus | Multiplies | Divides | Modulus | And | Ior | Xor | Gcd | Lcm
  datatype ShiftOp = LeftShift | RightShift

  datatype Expr =
    | Var(m: Mpz)
    | Unary(uop: UnaryOp, e: Expr)
    | Binary(op: BinaryOp, e1: Expr, e2: Expr)
    | BuiltinRight(op: BinaryOp, e: Expr, l: Builtin)
    | BuiltinLeft(op: BinaryOp, l: Builtin, e: Expr)
    | Shift(sop: ShiftOp, e: Expr, bits: nat)

  function Pow2(k: nat): (p: nat)
    ensures p >= 1
  {
    if k == 0 then 1 else 2 * Pow2(k-1)
  }

  function ApplyUnary(op: UnaryOp, a: int): int {
    match op
    case UnaryPlus => a
    case UnaryMinus => -a
    case Com => -a - 1
    case Absolute => Abs(a)
    case Sqrt => if a < 0 then 0 else Primes.Root(a)
  }

  /** mpz_sqrt of a negative number is an error. */
  predicate UnaryFaults(op: UnaryOp, a: int) {
    op.Sqrt? && a < 0
  }

  function Apply(op: BinaryOp, a: int, b: int): int {
    match op
    case Plus => a + b
    case Minus => a - b
    case Multiplies => a * b
    case Divides => Quot(a, b)
    case Modulus => Rem(a, b)
    case And => Bitwise(BitAnd, a, b)
    case Ior => Bitwise(BitIor, a, b)
    case Xor => Bitwise(BitXor, a, b)
    case Gcd => Divisor(Abs(a), Abs(b))
    case Lcm => if a == 0 || b == 0 then 0 else Multiple(Abs(a), Abs(b))
  }

  predicate Commutes(op: BinaryOp) {
    !op.Minus? && !op.Divides? && !op.Modulus?
  }

  lemma ApplyCommutes(op: BinaryOp, a: int, b: int)
    requires Commutes(op)
    ensures Apply(op, a, b) == Apply(op, b, a)
  {
    match op
    case Plus =>
    case Multiplies =>
    case And => BitwiseCommutes(BitAnd, a, b);
    case Ior => BitwiseCommutes(BitIor, a, b);
    case Xor => BitwiseCommutes(BitXor, a, b);
    case Gcd => DivisorCommutes(Abs(a), Abs(b));
    case Lcm =>
      DivisorCommutes(Abs(a), Abs(b));
      assert Abs(a) * Abs(b) == Abs(b) * Abs(a);
  }

  function ApplyShift(op: ShiftOp, a: int, bits: nat): int {
    match op
    case LeftShift => a * Pow2(bits)
    case RightShift => a / Pow2(bits)
  }

  predicate Division(op: BinaryOp) {
    op.Divides? || op.Modulus?
  }

  /** Dividing the built-in l by b overflows exactly for LONG_MIN and -1. */
  predicate LeftFaults(op: BinaryOp, l: Builtin, b: int) {
    Division(op) && (b == 0 || (l == SL(LONG_MIN) && b == -1))
  }

  ghost function Leaves(e: Expr): set<Mpz> {
    match e
    case Var(m) => {m}
    case Unary(_, e) => Leaves(e)
    case Binary(_, e1, e2) => Leaves(e1) + Leaves(e2)
    case BuiltinRight(_, e, _) => Leaves(e)
    case BuiltinLeft(_, _, e) => Leaves(e)
    case Shift(_, e, _) => Leaves(e)
  }

  lemma {:induction false} LeavesExist(e: Expr)
    ensures forall m | m in Leaves(e) :: allocated(m)
  {
    match e
    case Var(m) =>
    case Unary(_, e) => LeavesExist(e);
    case Binary(_, e1, e2) =>
      LeavesExist(e1);
      LeavesExist(e2);
    case BuiltinRight(_, e, _) => LeavesExist(e);
    case BuiltinLeft(_, _, e) => LeavesExist(e);
    case Shift(_, e, _) => LeavesExist(e);
  }

  /** The mathematical value of a tree over the present contents of its variables. */
  ghost function Value(e: Expr): int
    reads Leaves(e)
  {
    match e
    case Var(m) => m.value
    case Unary(op, e) => ApplyUnary(op, Value(e))
    case Binary(op, e1, e2) => Apply(op, Value(e1), Value(e2))
    case BuiltinRight(op, e, l) => Apply(op, Value(e), Number(l))
    case BuiltinLeft(op, l, e) => Apply(op, Number(l), Value(e))
    case Shift(op, e, bits) => ApplyShift(op, Value(e), bits)
  }

  /** No division in the tree is by zero or overflows, and no root is of a negative number. */
  ghost predicate Safe(e: Expr)
    reads Leaves(e)
  {
    match e
    case Var(_) => true
    case Unary(op, e) => Safe(e) && !UnaryFaults(op, Value(e))
    case Binary(op, e1, e2) => Safe(e1) && Safe(e2) && (Division(op) ==> Value(e2) != 0)
    case BuiltinRight(op, e, l) => Safe(e) && (Division(op) ==> Number(l) != 0)
    case BuiltinLeft(op, l, e) => Safe(e) && !LeftFaults(op, l, Value(e))
    case Shift(_, e, _) => Safe(e)
  }

  // ----- the function objects: z may be the same variable as w or v -----

  method EvalUnary(op: UnaryOp, z: Mpz, w: Mpz) returns (ok: bool)
    modifies z
    ensures ok <==> !UnaryFaults(op, old(w.value))
    ensures ok ==> z.value == ApplyUnary(op, old(w.value))
  {
    ok := true;
    match op
    case UnaryPlus => z.value := w.value;
    case UnaryMinus => z.value := -w.value;
    case Com => z.value := -w.value - 1;
    case Absolute => z.value := Abs(w.value);
    case Sqrt =>
      if w.value < 0 {
        return false;
      }
      z.value := Primes.Root(w.value);
  }

  /** mpz_add, mpz_sub, mpz_mul, mpz_tdiv_q, mpz_tdiv_r, mpz_and, mpz_ior, mpz_xor, mpz_gcd, mpz_lcm */
  method EvalBinary(op: BinaryOp, z: Mpz, w: Mpz, v: Mpz) returns (ok: bool)
    modifies z
    ensures ok <==> !(Division(op) && old(v.value) == 0)
    ensures ok ==> z.value == Apply(op, old(w.value), old(v.value))
  {
    if Division(op) && v.value == 0 {
      return false;
    }
    z.value := Apply(op, w.value, v.value);
    ok := true;
  }

  method EvalShift(op: ShiftOp, z: Mpz, w: Mpz, bits: nat)
    modifies z
    ensures z.value == ApplyShift(op, old(w.value), bits)
  {
    var constant := *;
    if constant && bits == 0 {
      if z != w {
        z.value := w.value;
      }
    } else {
      z.value := ApplyShift(op, w.value, bits);
    }
  }

  /** __builtin_ctzl */
  function TrailingZeros(l: nat): nat {
    if l == 0 || l % 2 == 1 then 0 else 1 + TrailingZeros(l / 2)
  }

  /** (l & (l-1)) == 0, stated by its meaning. */
  predicate PowerOfTwo(l: nat) {
    l == 0 || l == Pow2(TrailingZeros(l))
  }

  method PlusUl(z: Mpz, w: Mpz, l: ULong)
    modifies z
    ensures z.value == old(w.value) + l
  {
    var constant := *;
    if constant && l == 0 {
      if z != w {
        z.value := w.value;
      }
    } else {
      z.value := w.value + l;
    }
  }

  method PlusSl(z: Mpz, w: Mpz, l: Long)
    modifies z
    ensures z.value == old(w.value) + l
  {
    if l >= 0 {
      PlusUl(z, w, l);
    } else {
      z.value := w.value - Negated(l);
    }
  }

  /** -static_cast<unsigned long>(l), also __gmpxx_abs_ui for a negative l */
  function Negated(l: Long): (u: ULong)
    ensures l < 0 ==> u == -(l as int)
  {
    (-(l as int % 0x1_0000_0000)) % 0x1_0000_0000
  }

  method MinusUl(z: Mpz, w: Mpz, l: ULong)
    modifies z
    ensures z.value == old(w.value) - l
  {
    var constant := *;
    if constant && l == 0 {
      if z != w {
        z.value := w.value;
      }
    } else {
      z.value := w.value - l;
    }
  }

  method UlMinus(z: Mpz, l: ULong, w: Mpz)
    modifies z
    ensures z.value == l - old(w.value)
  {
    var constant := *;
    if constant && l == 0 {
      z.value := -w.value;
    } else {
      z.value := l - w.value;
    }
  }

  method MinusSl(z: Mpz, w: Mpz, l: Long)
    modifies z
    ensures z.value == old(w.value) - l
  {
    if l >= 0 {
      MinusUl(z, w, l);
    } else {
      z.value := w.value + Negated(l);
    }
  }

  method SlMinus(z: Mpz, l: Long, w: Mpz)
    modifies z
    ensures z.value == l - old(w.value)
  {
    if l >= 0 {
      UlMinus(z, l, w);
    } else {
      z.value := w.value + Negated(l);
      z.value := -z.value;
    }
  }

  method MultipliesUl(z: Mpz, w: Mpz, l: ULong)
    modifies z
    ensures z.value == old(w.value) * l
  {
    var constant := *;
    if constant && PowerOfTwo(l) {
      if l == 0 {
        z.value := 0;
      } else {
        EvalShift(LeftShift, z, w, TrailingZeros(l));
      }
    } else {
      z.value := w.value * l;
    }
  }

  method MultipliesSl(z: Mpz, w: Mpz, l: Long)
    modifies z
    ensures z.value == old(w.value) * l
  {
    var knownNonNegative, knownNonPositive := *, *;
    if knownNonNegative && l >= 0 {
      MultipliesUl(z, w, l);
    } else if knownNonPositive && l <= 0 {
      MultipliesUl(z, w, Negated(l));
      z.value := -z.value;
      assert -(old(w.value) * -(l as int)) == old(w.value) * l;
    } else {
      z.value := w.value * l;
    }
  }

  method DividesUl(z: Mpz, w: Mpz, l: ULong) returns (ok: bool)
    modifies z
    ensures ok <==> l != 0
    ensures ok ==> z.value == Quot(old(w.value), l)
  {
    var constant := *;
    if constant && PowerOfTwo(l) && l != 0 {
      if l == 1 {
        QuotByOne(w.value);
        if z != w {
          z.value := w.value;
        }
      } else {
        z.value := Quot(w.value, Pow2(TrailingZeros(l)));
      }
    } else {
      if l == 0 {
        return false;
      }
      z.value := Quot(w.value, l);
    }
    ok := true;
  }

  lemma QuotByOne(a: int)
    ensures Quot(a, 1) == a
  {
  }

  lemma QuotByLarger(a: int, b: int)
    requires Abs(a) < Abs(b)
    ensures Quot(a, b) == 0 && Rem(a, b) == a
  {
    DivUnique(Abs(a), Abs(b), 0, Abs(a));
  }

  method UlDivides(z: Mpz, l: ULong, w: Mpz) returns (ok: bool)
    modifies z
    ensures ok <==> old(w.value) != 0
    ensures ok ==> z.value == Quot(l, old(w.value))
  {
    if w.value >= 0 {
      if w.value <= ULONG_MAX {
        if w.value == 0 {
          return false;
        }
        z.value := l / w.value;
      } else {
        QuotByLarger(l, w.value);
        z.value := 0;
      }
    } else {
      QuotByLargerIfSo(l, w.value);
      z.value := -w.value;
      if z.value <= ULONG_MAX {
        z.value := l / z.value;
        z.value := -z.value;
      } else {
        z.value := 0;
      }
    }
    ok := true;
  }

  lemma QuotByLargerIfSo(a: int, b: int)
    ensures Abs(a) < Abs(b) ==> Quot(a, b) == 0 && Rem(a, b) == a
  {
    if Abs(a) < Abs(b) {
      QuotByLarger(a, b);
    }
  }

  method DividesSl(z: Mpz, w: Mpz, l: Long) returns (ok: bool)
    modifies z
    ensures ok <==> l != 0
    ensures ok ==> z.value == Quot(old(w.value), l)
  {
    if l >= 0 {
      ok := DividesUl(z, w, l);
    } else {
      ok := DividesUl(z, w, Negated(l));
      z.value := -z.value;
    }
  }

  /** The division of two longs in C. */
  method LongDivide(a: Long, b: Long) returns (ok: bool, q: int)
    ensures ok <==> b != 0 && !(a == LONG_MIN && b == -1)
    ensures ok ==> q == Quot(a, b) && LONG_MIN <= q <= LONG_MAX
  {
    if b == 0 || (a == LONG_MIN && b == -1) {
      return false, 0;
    }
    LongQuotient(a, b);
    return true, Quot(a, b);
  }

  method SlDivides(z: Mpz, l: Long, w: Mpz) returns (ok: bool)
    modifies z
    ensures ok <==> !LeftFaults(Divides, SL(l), old(w.value))
    ensures ok ==> z.value == Quot(l, old(w.value))
  {
    if LONG_MIN <= w.value <= LONG_MAX {
      var q;
      ok, q := LongDivide(l, w.value);
      if ok {
        z.value := q;
      }
    } else {
      QuotByLargerIfSo(l, w.value);
      z.value := if Abs(w.value) == AbsUi(l) then -1 else 0;
      ok := true;
    }
  }

  /** __gmpxx_abs_ui */
  function AbsUi(l: Long): (u: ULong)
    ensures u == Abs(l)
  {
    if l >= 0 then l else Negated(l)
  }

  method ModulusUl(z: Mpz, w: Mpz, l: ULong) returns (ok: bool)
    modifies z
    ensures ok <==> l != 0
    ensures ok ==> z.value == Rem(old(w.value), l)
  {
    if l == 0 {
      return false;
    }
    z.value := Rem(w.value, l);
    ok := true;
  }

  method UlModulus(z: Mpz, l: ULong, w: Mpz) returns (ok: bool)
    modifies z
    ensures ok <==> old(w.value) != 0
    ensures ok ==> z.value == Rem(l, old(w.value))
  {
    QuotByLargerIfSo(l, w.value);
    if w.value >= 0 {
      if w.value <= ULONG_MAX {
        if w.value == 0 {
          return false;
        }
        z.value := l % w.value;
      } else {
        z.value := l;
      }
    } else {
      z.value := -w.value;
      if z.value <= ULONG_MAX {
        z.value := l % z.value;
      } else {
        z.value := l;
      }
    }
    ok := true;
  }

  method ModulusSl(z: Mpz, w: Mpz, l: Long) returns (ok: bool)
    modifies z
    ensures ok <==> l != 0
    ensures ok ==> z.value == Rem(old(w.value), l)
  {
    ok := ModulusUl(z, w, AbsUi(l));
  }

  method SlModulus(z: Mpz, l: Long, w: Mpz) returns (ok: bool)
    modifies z
    ensures ok <==> !LeftFaults(Modulus, SL(l), old(w.value))
    ensures ok ==> z.value == Rem(l, old(w.value))
  {
    if LONG_MIN <= w.value <= LONG_MAX {
      var q;
      ok, q := LongDivide(l, w.value);
      if ok {
        z.value := Rem(l, w.value);
      }
    } else {
      QuotByLargerIfSo(l, w.value);
      z.value := if Abs(w.value) == AbsUi(l) then 0 else l;
      ok := true;
    }
  }

  /** __GMPXX_TMPZ_UI, __GMPXX_TMPZ_SI and __GMPXX_TMPZ_D: the built-in value in a variable of its own. */
  method EvalRightByTemp(op: BinaryOp, z: Mpz, w: Mpz, l: Builtin) returns (ok: bool)
    modifies z
    ensures ok <==> !(Division(op) && Number(l) == 0)
    ensures ok ==> z.value == Apply(op, old(w.value), Number(l))
  {
    var temp := new Mpz(Number(l));
    ok := EvalBinary(op, z, w, temp);
  }

  method EvalLeftByTemp(op: BinaryOp, z: Mpz, l: Builtin, w: Mpz) returns (ok: bool)
    modifies z
    ensures ok <==> !(Division(op) && old(w.value) == 0)
    ensures ok ==> z.value == Apply(op, Number(l), old(w.value))
  {
    var temp := new Mpz(Number(l));
    ok := EvalBinary(op, z, temp, w);
  }

  /** Op::eval(z, w, l) */
  method EvalRight(op: BinaryOp, z: Mpz, w: Mpz, l: Builtin) returns (ok: bool)
    modifies z
    ensures ok <==> !(Division(op) && Number(l) == 0)
    ensures ok ==> z.value == Apply(op, old(w.value), Number(l))
  {
    ok := true;
    if l.D? || op.And? || op.Ior? || op.Xor? {
      ok := EvalRightByTemp(op, z, w, l);
    } else if op.Gcd? || op.Lcm? {
      var u: ULong := if l.UL? then l.u else AbsUi(l.s);
      z.value := Apply(op, w.value, u);
    } else {
      match (op, l)
      case (Plus, UL(u)) => PlusUl(z, w, u);
      case (Plus, SL(s)) => PlusSl(z, w, s);
      case (Minus, UL(u)) => MinusUl(z, w, u);
      case (Minus, SL(s)) => MinusSl(z, w, s);
      case (Multiplies, UL(u)) => MultipliesUl(z, w, u);
      case (Multiplies, SL(s)) => MultipliesSl(z, w, s);
      case (Divides, UL(u)) => ok := DividesUl(z, w, u);
      case (Divides, SL(s)) => ok := DividesSl(z, w, s);
      case (Modulus, UL(u)) => ok := ModulusUl(z, w, u);
      case (Modulus, SL(s)) => ok := ModulusSl(z, w, s);
    }
  }

  /** Op::eval(z, l, w), which exchanges the operands where that makes no difference. */
  method EvalLeft(op: BinaryOp, z: Mpz, l: Builtin, w: Mpz) returns (ok: bool)
    modifies z
    ensures ok <==> !LeftFaults(op, l, old(w.value))
    ensures ok ==> z.value == Apply(op, Number(l), old(w.value))
  {
    ok := true;
    if Commutes(op) {
      ApplyCommutes(op, Number(l), w.value);
      ok := EvalRight(op, z, w, l);
    } else if l.D? {
      ok := EvalLeftByTemp(op, z, l, w);
    } else {
      match (op, l)
      case (Minus, UL(u)) => UlMinus(z, u, w);
      case (Minus, SL(s)) => SlMinus(z, s, w);
      case (Divides, UL(u)) => ok := UlDivides(z, u, w);
      case (Divides, SL(s)) => ok := SlDivides(z, s, w);
      case (Modulus, UL(u)) => ok := UlModulus(z, u, w);
      case (Modulus, SL(s)) => ok := SlModulus(z, s, w);
    }
  }

  // ----- eval(p) -----

  /** __gmp_set_expr and the eval members: p gets the value the tree had at the call. */
  method Eval(e: Expr, p: Mpz) returns (ok: bool)
    modifies p
    ensures ok <==> old(Safe(e))
    ensures ok ==> p.value == old(Value(e))
    decreases e, 0
  {
    ok := true;
    match e
    case Var(m) => p.value := m.value;
    case Unary(op, Var(m)) => ok := EvalUnary(op, p, m);
    case Unary(op, e') =>
      ok := Eval(e', p);
      if ok {
        ok := EvalUnary(op, p, p);
      }
    case Shift(op, Var(m), bits) => EvalShift(op, p, m, bits);
    case Shift(op, e', bits) =>
      ok := Eval(e', p);
      if ok {
        EvalShift(op, p, p, bits);
      }
    case BuiltinRight(op, Var(m), l) => ok := EvalRight(op, p, m, l);
    case BuiltinRight(op, e', l) =>
      ok := Eval(e', p);
      if ok {
        ok := EvalRight(op, p, p, l);
      }
    case BuiltinLeft(op, l, Var(m)) => ok := EvalLeft(op, p, l, m);
    case BuiltinLeft(op, l, e') =>
      ok := Eval(e', p);
      if ok {
        ok := EvalLeft(op, p, l, p);
      }
    case Binary(op, Var(m1), Var(m2)) => ok := EvalBinary(op, p, m1, m2);
    case Binary(op, Var(m1), e2) => ok := EvalVarTree(op, m1, e2, p);
    case Binary(op, e1, Var(m2)) => ok := EvalTreeVar(op, e1, m2, p);
    case Binary(op, e1, e2) => ok := EvalTreeTree(op, e1, e2, p);
  }

  /** The temporary __gmp_temp<T>(e, p): a new variable holding the value of e. */
  method EvalTemp(e: Expr) returns (ok: bool, temp: Mpz)
    ensures fresh(temp)
    ensures ok <==> old(Safe(e))
    ensures ok ==> temp.value == old(Value(e))
    decreases e, 1
  {
    LeavesExist(e);
    temp := new Mpz(0);
    ok := Eval(e, temp);
  }

  /** A variable on the left: it is read after the tree, so p must not overwrite it. */
  method EvalVarTree(op: BinaryOp, m: Mpz, e: Expr, p: Mpz) returns (ok: bool)
    modifies p
    ensures ok <==> old(Safe(e)) && !(Division(op) && old(Value(e)) == 0)
    ensures ok ==> p.value == Apply(op, old(m.value), old(Value(e)))
    decreases e, 2
  {
    if p != m {
      ok := Eval(e, p);
      if ok {
        ok := EvalBinary(op, p, m, p);
      }
    } else {
      var temp;
      ok, temp := EvalTemp(e);
      if ok {
        ok := EvalBinary(op, p, m, temp);
      }
    }
  }

  /** A variable on the right. */
  method EvalTreeVar(op: BinaryOp, e: Expr, m: Mpz, p: Mpz) returns (ok: bool)
    modifies p
    ensures ok <==> old(Safe(e)) && !(Division(op) && old(m.value) == 0)
    ensures ok ==> p.value == Apply(op, old(Value(e)), old(m.value))
    decreases e, 2
  {
    if p != m {
      ok := Eval(e, p);
      if ok {
        ok := EvalBinary(op, p, p, m);
      }
    } else {
      var temp;
      ok, temp := EvalTemp(e);
      if ok {
        ok := EvalBinary(op, p, temp, m);
      }
    }
  }

  /** Two trees: the right one goes to a temporary before the left one overwrites p. */
  method EvalTreeTree(op: BinaryOp, e1: Expr, e2: Expr, p: Mpz) returns (ok: bool)
    modifies p
    ensures ok <==> old(Safe(e1)) && old(Safe(e2)) && !(Division(op) && old(Value(e2)) == 0)
    ensures ok ==> p.value == Apply(op, old(Value(e1)), old(Value(e2)))
    decreases Binary(op, e1, e2), -1
  {
    LeavesExist(e1);
    var temp2;
    ok, temp2 := EvalTemp(e2);
    if ok {
      ok := Eval(e1, p);
      if ok {
        ok := EvalBinary(op, p, p, temp2);
      }
    }
  }
}
