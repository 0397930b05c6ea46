/**
 The inline limb routines of gmp.h for 32-bit limbs without nail bits.  A number is stored
 least significant limb first.  A destination may be the same array as a source; two
 different arrays never overlap.  mpn_add_n, mpn_sub_n and mpn_com are library code whose
 documented effect is what their contracts below state.
 */
module Limbs {

  const B := 0x1_0000_0000

  type Limb = x: int | 0 <= x < 0x1_0000_0000

  function Pow(i: nat): (p: nat)
    ensures p >= 1
  {
    if i == 0 then 1 else 0x1_0000_0000 * Pow(i-1)
  }

  /** digit * p, as repeated addition: this keeps products of variables out of the proofs. */
  function Weigh(digit: nat, p: nat): nat {
    if p == 0 then 0 else Weigh(digit, p-1) + digit
  }

  /** The number that the lowest n limbs stand for. */
  function Num(l: seq<Limb>, n: nat): nat
    requires n <= |l|
  {
    if n == 0 then 0 else Num(l, n-1) + Weigh(l[n-1], Pow(n-1))
  }

  /** What a carry or borrow of 0 or 1 is worth. */
  function Carried(c: nat, p: nat): nat {
    if c == 0 then 0 else p
  }

  // ----- weights -----

  lemma {:induction false} WeighIsProduct(digit: nat, p: nat)
    ensures Weigh(digit, p) == digit * p
  {
    if p > 0 {
      WeighIsProduct(digit, p-1);
      assert digit * p == digit * (p - 1) + digit;
    }
  }

  lemma {:induction false} WeighSum(a: nat, b: nat, p: nat)
    ensures Weigh(a + b, p) == Weigh(a, p) + Weigh(b, p)
  {
    if p > 0 {
      WeighSum(a, b, p-1);
    }
  }

  lemma {:induction false} WeighUnits(p: nat)
    ensures Weigh(0, p) == 0 && Weigh(1, p) == p
  {
    if p > 0 {
      WeighUnits(p-1);
    }
  }

  lemma WeighBase(p: nat)
    ensures Weigh(0x1_0000_0000, p) == 0x1_0000_0000 * p
  {
    WeighIsProduct(0x1_0000_0000, p);
  }

  /** A smaller limb weighs less even with a carry. */
  lemma WeighLimb(x: nat, y: nat, p: nat)
    requires x < y
    ensures Weigh(x, p) + p <= Weigh(y, p)
  {
    WeighSum(x, 1, p);
    WeighSum(x + 1, y - x - 1, p);
    WeighUnits(p);
  }

  lemma Digits(p: nat, x: nat, y: nat, c: nat, r: nat)
    requires c <= 1 && x + y + c == r
    ensures Weigh(x, p) + Weigh(y, p) + Carried(c, p) == Weigh(r, p)
  {
    WeighSum(x, y, p);
    if c == 1 {
      WeighSum(x + y, 1, p);
      WeighUnits(p);
    }
  }

  /** One column of an addition: x + y + carry = r + carry' * 2^32, at weight p. */
  lemma Column(p: nat, x: nat, y: nat, c: nat, r: nat, c': nat)
    requires c <= 1 && c' <= 1 && x + y + c == r + Carried(c', 0x1_0000_0000)
    ensures Weigh(x, p) + Weigh(y, p) + Carried(c, p) == Weigh(r, p) + Carried(c', 0x1_0000_0000 * p)
  {
    Digits(p, x, y, c, r + Carried(c', 0x1_0000_0000));
    if c' == 1 {
      WeighSum(r, 0x1_0000_0000, p);
      WeighBase(p);
    }
  }

  /** A carry of one into the limb x, which becomes r. */
  lemma CarryColumn(p: nat, x: nat, r: nat, c': nat)
    requires c' <= 1 && x + 1 == r + Carried(c', 0x1_0000_0000)
    ensures Weigh(x, p) + p == Weigh(r, p) + Carried(c', 0x1_0000_0000 * p)
  {
    Column(p, x, 0, 1, r, c');
    WeighUnits(p);
  }

  // ----- numbers -----

  lemma {:induction false} NumFrame(l: seq<Limb>, l': seq<Limb>, n: nat)
    requires n <= |l| && n <= |l'| && forall k | 0 <= k < n :: l[k] == l'[k]
    ensures Num(l, n) == Num(l', n)
  {
    if n > 0 {
      NumFrame(l, l', n-1);
    }
  }

  /** Higher limbs that agree shift both numbers by the same amount. */
  lemma {:induction false} NumExtend(l: seq<Limb>, l': seq<Limb>, i: nat, n: nat)
    requires i <= n <= |l| && n <= |l'| && forall k | i <= k < n :: l[k] == l'[k]
    ensures Num(l, n) - Num(l', n) == Num(l, i) - Num(l', i)
  {
    if i < n {
      NumExtend(l, l', i, n-1);
    }
  }

  lemma {:induction false} NumBound(l: seq<Limb>, n: nat)
    requires n <= |l|
    ensures Num(l, n) < Pow(n)
  {
    if n > 0 {
      NumBound(l, n-1);
      WeighLimb(l[n-1], 0x1_0000_0000, Pow(n-1));
      WeighBase(Pow(n-1));
    }
  }

  /** A difference in the highest place that differs decides the order. */
  lemma HighestDecides(x: seq<Limb>, y: seq<Limb>, i: nat, n: nat)
    requires i < n <= |x| && n <= |y| && x[i] < y[i]
    requires forall k | i < k < n :: x[k] == y[k]
    ensures Num(x, n) < Num(y, n)
  {
    NumExtend(x, y, i + 1, n);
    NumBound(x, i);
    WeighLimb(x[i], y[i], Pow(i));
  }

  /** A number has one representation of a given length. */
  lemma {:induction false} NumInjective(l: seq<Limb>, l': seq<Limb>, n: nat)
    requires n <= |l| && n <= |l'| && Num(l, n) == Num(l', n)
    ensures forall k | 0 <= k < n :: l[k] == l'[k]
  {
    if n > 0 {
      if l[n-1] < l'[n-1] {
        HighestDecides(l, l', n-1, n);
      } else if l'[n-1] < l[n-1] {
        HighestDecides(l', l, n-1, n);
      }
      NumInjective(l, l', n-1);
    }
  }

  lemma {:induction false} AllZero(l: seq<Limb>, n: nat)
    requires n <= |l| && forall k | 0 <= k < n :: l[k] == 0
    ensures Num(l, n) == 0
  {
    if n > 0 {
      AllZero(l, n-1);
      WeighUnits(Pow(n-1));
    }
  }

  lemma {:induction false} NonZero(l: seq<Limb>, i: nat, n: nat)
    requires i < n <= |l| && l[i] != 0
    ensures Num(l, n) > 0
  {
    if i < n - 1 {
      NonZero(l, i, n-1);
    } else {
      WeighLimb(0, l[i], Pow(i));
    }
  }

  // ----- addition and subtraction of limb vectors -----

  /** Nothing from limb n on has changed. */
  twostate predicate SameFrom(a: array<Limb>, n: nat)
    reads a
  {
    forall k | n <= k < a.Length :: a[k] == old(a[k])
  }

  /** One column of mpn_add_n. */
  method AddColumn(rp: array<Limb>, xp: array<Limb>, yp: array<Limb>, i: nat, carry: nat,
      ghost X: seq<Limb>, ghost Y: seq<Limb>)
    returns (carry': nat)
    requires i < rp.Length && i < xp.Length && i < yp.Length && carry <= 1
    requires i < |X| && i < |Y| && xp[i] == X[i] && yp[i] == Y[i]
    modifies rp
    ensures carry' <= 1 && forall k | 0 <= k < rp.Length && k != i :: rp[k] == old(rp[k])
    ensures Num(rp[..], i+1) + Carried(carry', Pow(i+1)) - Num(X, i+1) - Num(Y, i+1)
         == Num(old(rp[..]), i) + Carried(carry, Pow(i)) - Num(X, i) - Num(Y, i)
  {
    ghost var before := rp[..];
    var sum: int := xp[i] + yp[i] + carry;
    rp[i] := sum % B;
    carry' := sum / B;
    NumFrame(before, rp[..], i);
    Column(Pow(i), X[i], Y[i], carry, rp[i], carry');
  }

  /** One column of mpn_sub_n. */
  method SubColumn(rp: array<Limb>, xp: array<Limb>, yp: array<Limb>, i: nat, borrow: nat,
      ghost X: seq<Limb>, ghost Y: seq<Limb>)
    returns (borrow': nat)
    requires i < rp.Length && i < xp.Length && i < yp.Length && borrow <= 1
    requires i < |X| && i < |Y| && xp[i] == X[i] && yp[i] == Y[i]
    modifies rp
    ensures borrow' <= 1 && forall k | 0 <= k < rp.Length && k != i :: rp[k] == old(rp[k])
    ensures Num(rp[..], i+1) - Carried(borrow', Pow(i+1)) - Num(X, i+1) + Num(Y, i+1)
         == Num(old(rp[..]), i) - Carried(borrow, Pow(i)) - Num(X, i) + Num(Y, i)
  {
    ghost var before := rp[..];
    var x: int, y: int := xp[i], yp[i];
    borrow' := if x < y + borrow then 1 else 0;
    rp[i] := (x - y - borrow) % B;
    NumFrame(before, rp[..], i);
    Column(Pow(i), rp[i], y, borrow, x, borrow');
  }

  /** mpn_add_n */
  method AddN(rp: array<Limb>, xp: array<Limb>, yp: array<Limb>, n: nat) returns (carry: nat)
    requires n <= rp.Length && n <= xp.Length && n <= yp.Length
    modifies rp
    ensures carry <= 1
    ensures Num(rp[..], n) + Carried(carry, Pow(n)) == Num(old(xp[..]), n) + Num(old(yp[..]), n)
    ensures SameFrom(rp, n)
  {
    ghost var X, Y := xp[..], yp[..];
    carry := 0;
    for i := 0 to n
      invariant carry <= 1
      invariant forall k | i <= k < n :: xp[k] == X[k] && yp[k] == Y[k]
      invariant Num(rp[..], i) + Carried(carry, Pow(i)) == Num(X, i) + Num(Y, i)
      invariant SameFrom(rp, n)
    {
      carry := AddColumn(rp, xp, yp, i, carry, X, Y);
    }
  }

  /** mpn_sub_n */
  method SubN(rp: array<Limb>, xp: array<Limb>, yp: array<Limb>, n: nat) returns (borrow: nat)
    requires n <= rp.Length && n <= xp.Length && n <= yp.Length
    modifies rp
    ensures borrow <= 1
    ensures Num(rp[..], n) + Num(old(yp[..]), n) == Num(old(xp[..]), n) + Carried(borrow, Pow(n))
    ensures SameFrom(rp, n)
  {
    ghost var X, Y := xp[..], yp[..];
    borrow := 0;
    for i := 0 to n
      invariant borrow <= 1
      invariant forall k | i <= k < n :: xp[k] == X[k] && yp[k] == Y[k]
      invariant Num(rp[..], i) + Num(Y, i) == Num(X, i) + Carried(borrow, Pow(i))
      invariant SameFrom(rp, n)
    {
      borrow := SubColumn(rp, xp, yp, i, borrow, X, Y);
    }
  }

  /** __GMPN_COPY_REST */
  method CopyRest(dst: array<Limb>, src: array<Limb>, size: nat, start: nat)
    requires start <= size <= dst.Length && size <= src.Length
    modifies dst
    ensures forall k | 0 <= k < dst.Length ::
      dst[k] == if start <= k < size then old(src[k]) else old(dst[k])
  {
    for j := start to size
      invariant forall k | 0 <= k < dst.Length :: dst[k] == if start <= k < j then old(src[k]) else old(dst[k])
      invariant forall k | j <= k < size :: src[k] == old(src[k])
    {
      dst[j] := src[j];
    }
  }

  /** The end of every routine: copy the limbs that the carry did not reach. */
  method CopyTail(wp: array<Limb>, xp: array<Limb>, size: nat, i: nat, ghost X: seq<Limb>, ghost extra: int)
    requires i <= size <= wp.Length && size <= xp.Length && size <= |X|
    requires forall k | i <= k < size :: xp[k] == X[k]
    requires Num(wp[..], i) == Num(X, i) + extra
    modifies wp
    ensures Num(wp[..], size) == Num(X, size) + extra
    ensures SameFrom(wp, size)
  {
    ghost var before := wp[..];
    if wp != xp {
      CopyRest(wp, xp, size, i);
    }
    NumFrame(before, wp[..], i);
    NumExtend(wp[..], X, i, size);
  }

  /** wp[i] = xp[i] + 1, and whether it carries on. */
  method AddOneAt(wp: array<Limb>, xp: array<Limb>, i: nat, ghost X: seq<Limb>) returns (c: nat)
    requires i < wp.Length && i < xp.Length && i < |X| && xp[i] == X[i]
    modifies wp
    ensures c <= 1 && forall k | 0 <= k < wp.Length && k != i :: wp[k] == old(wp[k])
    ensures Num(wp[..], i+1) + Carried(c, Pow(i+1)) - Num(X, i+1) == Num(old(wp[..]), i) + Pow(i) - Num(X, i)
  {
    ghost var before := wp[..];
    wp[i] := (xp[i] + 1) % B;
    c := if wp[i] == 0 then 1 else 0;
    NumFrame(before, wp[..], i);
    CarryColumn(Pow(i), X[i], wp[i], c);
  }

  /** wp[i] = xp[i] - 1, and whether it borrows on. */
  method SubOneAt(wp: array<Limb>, xp: array<Limb>, i: nat, ghost X: seq<Limb>) returns (c: nat)
    requires i < wp.Length && i < xp.Length && i < |X| && xp[i] == X[i]
    modifies wp
    ensures c <= 1 && forall k | 0 <= k < wp.Length && k != i :: wp[k] == old(wp[k])
    ensures Num(wp[..], i+1) - Carried(c, Pow(i+1)) - Num(X, i+1) == Num(old(wp[..]), i) - Pow(i) - Num(X, i)
  {
    ghost var before := wp[..];
    var x: int := xp[i];
    wp[i] := (x - 1) % B;
    c := if x == 0 then 1 else 0;
    NumFrame(before, wp[..], i);
    CarryColumn(Pow(i), wp[i], x, c);
  }

  /** The inner loop of __GMPN_ADD and __GMPN_ADD_1: a carry of one runs upwards from limb `start`. */
  method RunCarry(wp: array<Limb>, xp: array<Limb>, size: nat, start: nat, ghost X: seq<Limb>, ghost extra: int)
    returns (carry: nat)
    requires start <= size <= wp.Length && size <= xp.Length && size <= |X|
    requires forall k | start <= k < size :: xp[k] == X[k]
    requires Num(wp[..], start) + Pow(start) == Num(X, start) + extra
    modifies wp
    ensures carry <= 1 && Num(wp[..], size) + Carried(carry, Pow(size)) == Num(X, size) + extra
    ensures SameFrom(wp, size)
  {
    var i, c: nat := start, 1;
    while c != 0
      invariant c <= 1 && start <= i <= size
      invariant forall k | i <= k < size :: xp[k] == X[k]
      invariant Num(wp[..], i) + Carried(c, Pow(i)) == Num(X, i) + extra
      invariant SameFrom(wp, size)
      decreases size - i + c
    {
      if i >= size {
        return 1;
      }
      c := AddOneAt(wp, xp, i, X);
      i := i + 1;
    }
    CopyTail(wp, xp, size, i, X, extra);
    carry := 0;
  }

  /** The inner loop of __GMPN_SUB and __GMPN_SUB_1: a borrow of one runs upwards. */
  method RunBorrow(wp: array<Limb>, xp: array<Limb>, size: nat, start: nat, ghost X: seq<Limb>, ghost extra: int)
    returns (borrow: nat)
    requires start <= size <= wp.Length && size <= xp.Length && size <= |X|
    requires forall k | start <= k < size :: xp[k] == X[k]
    requires Num(wp[..], start) - Pow(start) == Num(X, start) + extra
    modifies wp
    ensures borrow <= 1 && Num(wp[..], size) - Carried(borrow, Pow(size)) == Num(X, size) + extra
    ensures SameFrom(wp, size)
  {
    var i, c: nat := start, 1;
    while c != 0
      invariant c <= 1 && start <= i <= size
      invariant forall k | i <= k < size :: xp[k] == X[k]
      invariant Num(wp[..], i) - Carried(c, Pow(i)) == Num(X, i) + extra
      invariant SameFrom(wp, size)
      decreases size - i + c
    {
      if i >= size {
        return 1;
      }
      c := SubOneAt(wp, xp, i, X);
      i := i + 1;
    }
    CopyTail(wp, xp, size, i, X, extra);
    borrow := 0;
  }

  /** mpn_add: add the lower limbs, let the carry run, copy what it does not reach. */
  method Add(wp: array<Limb>, xp: array<Limb>, xsize: nat, yp: array<Limb>, ysize: nat) returns (carry: nat)
    requires ysize <= xsize <= wp.Length && xsize <= xp.Length && ysize <= yp.Length
    modifies wp
    ensures carry <= 1
    ensures Num(wp[..], xsize) + Carried(carry, Pow(xsize)) == Num(old(xp[..]), xsize) + Num(old(yp[..]), ysize)
    ensures SameFrom(wp, xsize)
  {
    ghost var X, extra := xp[..], Num(yp[..], ysize);
    if ysize != 0 {
      var c := AddN(wp, xp, yp, ysize);
      if c != 0 {
        carry := RunCarry(wp, xp, xsize, ysize, X, extra);
        return;
      }
    }
    CopyTail(wp, xp, xsize, ysize, X, extra);
    carry := 0;
  }

  /** mpn_sub */
  method Sub(wp: array<Limb>, xp: array<Limb>, xsize: nat, yp: array<Limb>, ysize: nat) returns (borrow: nat)
    requires ysize <= xsize <= wp.Length && xsize <= xp.Length && ysize <= yp.Length
    modifies wp
    ensures borrow <= 1
    ensures Num(wp[..], xsize) + Num(old(yp[..]), ysize) == Num(old(xp[..]), xsize) + Carried(borrow, Pow(xsize))
    ensures SameFrom(wp, xsize)
  {
    ghost var X, extra := xp[..], 0 - Num(yp[..], ysize) as int;
    if ysize != 0 {
      var c := SubN(wp, xp, yp, ysize);
      if c != 0 {
        borrow := RunBorrow(wp, xp, xsize, ysize, X, extra);
        return;
      }
    }
    CopyTail(wp, xp, xsize, ysize, X, extra);
    borrow := 0;
  }

  lemma FirstLimb(l: seq<Limb>)
    requires 0 < |l|
    ensures Num(l, 1) == l[0] && Pow(1) == 0x1_0000_0000
  {
    assert Pow(0) == 1 && Weigh(l[0], 1) == l[0];
  }

  /** __GMPN_ADD_1: add one limb to a number of n >= 1 limbs. */
  method Add1(dst: array<Limb>, src: array<Limb>, n: nat, v: Limb) returns (carry: nat)
    requires 1 <= n <= dst.Length && n <= src.Length
    modifies dst
    ensures carry <= 1
    ensures Num(dst[..], n) + Carried(carry, Pow(n)) == Num(old(src[..]), n) + v
    ensures SameFrom(dst, n)
  {
    ghost var X := src[..];
    var x: int := src[0];
    var r := (x + v) % B;
    dst[0] := r;
    FirstLimb(dst[..]);
    FirstLimb(X);
    if r < v {
      carry := RunCarry(dst, src, n, 1, X, v);
    } else {
      CopyTail(dst, src, n, 1, X, v);
      carry := 0;
    }
  }

  /** __GMPN_SUB_1: subtract one limb from a number of n >= 1 limbs. */
  method Sub1(dst: array<Limb>, src: array<Limb>, n: nat, v: Limb) returns (borrow: nat)
    requires 1 <= n <= dst.Length && n <= src.Length
    modifies dst
    ensures borrow <= 1
    ensures Num(dst[..], n) + v == Num(old(src[..]), n) + Carried(borrow, Pow(n))
    ensures SameFrom(dst, n)
  {
    ghost var X := src[..];
    var x: int := src[0];
    dst[0] := (x - v) % B;
    FirstLimb(dst[..]);
    FirstLimb(X);
    if x < v {
      borrow := RunBorrow(dst, src, n, 1, X, 0 - v as int);
    } else {
      CopyTail(dst, src, n, 1, X, 0 - v as int);
      borrow := 0;
    }
  }

  // ----- comparison -----

  /** __GMPN_CMP: compare from the highest limb down. */
  method Cmp(xp: array<Limb>, yp: array<Limb>, size: nat) returns (result: int)
    requires size <= xp.Length && size <= yp.Length
    ensures result ==
      if Num(xp[..], size) > Num(yp[..], size) then 1 else if Num(xp[..], size) < Num(yp[..], size) then -1 else 0
  {
    var i := size - 1;
    while i >= 0
      invariant -1 <= i < size
      invariant forall k | i < k < size :: xp[k] == yp[k]
    {
      if xp[i] != yp[i] {
        if xp[i] > yp[i] {
          HighestDecides(yp[..], xp[..], i, size);
          return 1;
        } else {
          HighestDecides(xp[..], yp[..], i, size);
          return -1;
        }
      }
      i := i - 1;
    }
    NumFrame(xp[..], yp[..], size);
    return 0;
  }

  /** mpn_zero_p, for n >= 1 limbs. */
  method IsZero(p: array<Limb>, n: nat) returns (answer: int)
    requires 1 <= n <= p.Length
    ensures answer == if Num(p[..], n) == 0 then 1 else 0
  {
    var i := n;
    while i != 0
      invariant 0 <= i <= n
      invariant forall k | i <= k < n :: p[k] == 0
    {
      i := i - 1;
      if p[i] != 0 {
        NonZero(p[..], i, n);
        return 0;
      }
    }
    AllZero(p[..], n);
    return 1;
  }

  // ----- negation -----

  /** mpn_com, from limb `from` on. */
  method Com(rp: array<Limb>, up: array<Limb>, from: nat, n: nat)
    requires from <= n <= rp.Length && n <= up.Length
    modifies rp
    ensures forall k | 0 <= k < rp.Length ::
      rp[k] == if from <= k < n then B - 1 - old(up[k]) else old(rp[k])
  {
    for j := from to n
      invariant forall k | 0 <= k < rp.Length :: rp[k] == if from <= k < j then B - 1 - old(up[k]) else old(rp[k])
      invariant forall k | j <= k < n :: up[k] == old(up[k])
    {
      rp[j] := B - 1 - up[j];
    }
  }

  lemma ComplementColumn(p: nat, a: nat, b: nat)
    requires a + b == 0xFFFF_FFFF
    ensures Weigh(a, p) + Weigh(b, p) + p == 0x1_0000_0000 * p
  {
    WeighSum(a, b, p);
    CarryColumn(p, a + b, 0, 1);
    WeighUnits(p);
  }

  /** Complementing the limbs from i on extends B^i - x to B^n - x. */
  lemma {:induction false} Complement(r: seq<Limb>, u: seq<Limb>, i: nat, n: nat)
    requires i <= n <= |r| && n <= |u| && Num(r, i) + Num(u, i) == Pow(i)
    requires forall k | i <= k < n :: r[k] == 0xFFFF_FFFF - u[k]
    ensures Num(r, n) + Num(u, n) == Pow(n)
  {
    if i < n {
      Complement(r, u, i, n-1);
      ComplementColumn(Pow(n-1), r[n-1], u[n-1]);
    }
  }

  /** Negating the lowest limb that is not zero. */
  lemma NegatedLimb(r: seq<Limb>, u: seq<Limb>, i: nat)
    requires i < |r| && i < |u| && r[i] as int + u[i] as int == 0x1_0000_0000
    requires forall k | 0 <= k < i :: r[k] == 0 && u[k] == 0
    ensures Num(r, i+1) + Num(u, i+1) == Pow(i+1)
  {
    AllZero(r, i);
    AllZero(u, i);
    WeighSum(r[i], u[i], Pow(i));
    WeighBase(Pow(i));
  }

  /** The loop of mpn_neg: low zero limbs stay zero.  i == n when there are no others. */
  method NegZeros(rp: array<Limb>, up: array<Limb>, n: nat) returns (i: nat)
    requires 1 <= n <= rp.Length && n <= up.Length
    modifies rp
    ensures i <= n && (i < n ==> old(up[i]) != 0)
    ensures forall k | 0 <= k < i :: rp[k] == 0 && old(up[k]) == 0
    ensures forall k | i <= k < n :: up[k] == old(up[k])
    ensures SameFrom(rp, n)
  {
    i := 0;
    while up[i] == 0
      invariant 0 <= i < n
      invariant forall k | 0 <= k < i :: rp[k] == 0 && old(up[k]) == 0
      invariant forall k | i <= k < n :: up[k] == old(up[k])
      invariant SameFrom(rp, n)
      decreases n - i
    {
      rp[i] := 0;
      i := i + 1;
      if i == n {
        return;
      }
    }
  }

  /** mpn_neg, for n >= 1 limbs: B^n - u, or 0 for u = 0. */
  method Neg(rp: array<Limb>, up: array<Limb>, n: nat) returns (nonZero: int)
    requires 1 <= n <= rp.Length && n <= up.Length
    modifies rp
    ensures nonZero == if Num(old(up[..]), n) == 0 then 0 else 1
    ensures Num(rp[..], n) == if nonZero == 0 then 0 else Pow(n) - Num(old(up[..]), n)
    ensures SameFrom(rp, n)
  {
    ghost var U := up[..];
    var i := NegZeros(rp, up, n);
    if i == n {
      AllZero(U, n);
      AllZero(rp[..], n);
      return 0;
    }
    NonZero(U, i, n);
    var u: int := up[i];
    rp[i] := B - u;
    NegatedLimb(rp[..], U, i);
    ghost var before := rp[..];
    if i < n - 1 {
      Com(rp, up, i + 1, n);
    }
    NumFrame(before, rp[..], i + 1);
    Complement(rp[..], U, i + 1, n);
    return 1;
  }

  /** Adding in place and subtracting the same number restores every limb; carry and borrow agree. */
  method AddThenSub(xp: array<Limb>, xsize: nat, yp: array<Limb>, ysize: nat) returns (carry: nat, borrow: nat)
    requires xp != yp && ysize <= xsize <= xp.Length && ysize <= yp.Length
    modifies xp
    ensures xp[..] == old(xp[..]) && carry == borrow
  {
    carry := Add(xp, xp, xsize, yp, ysize);
    borrow := Sub(xp, xp, xsize, yp, ysize);
    NumBound(xp[..], xsize);
    NumBound(old(xp[..]), xsize);
    NumInjective(xp[..], old(xp[..]), xsize);
  }
}
