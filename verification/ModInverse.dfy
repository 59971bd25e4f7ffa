/** The modular inverse by the extended Euclidean algorithm on wrapping 64-bit
    words (rng.h). */
module ModInverse {
  import opened Arith

  predicate Divides(d: int, x: int)
    requires d > 0
  {
    x % d == 0
  }

  ghost predicate Coprime(x: nat, m: nat) {
    forall d: int | d > 1 :: !(Divides(d, x) && Divides(d, m))
  }

  function Abs(a: int): nat {
    if a < 0 then -a else a
  }

  /** The coefficients have opposite signs and the remainders are tied to the modulus
      n by |A|*x + |B|*m == n; so no coefficient leaves [-n, n]. */
  ghost predicate Balanced(A: int, B: int, x: int, m: int, n: int) {
    && (A <= 0 <= B || B <= 0 <= A)
    && Abs(A) * x + Abs(B) * m == n
  }

  lemma BalancedStep(A: int, B: int, x: nat, m: nat, n: nat)
    requires Balanced(A, B, x, m, n) && m > 0
    ensures Balanced(B - (x / m) * A, A, m, x % m, n)
    ensures Abs(B - (x / m) * A) <= n
  {
    var q, r := x / m, x % m;
    AbsDifference(A, B, q);
    CollectProducts(Abs(A), Abs(B), x, m, q, r);
    MulMonotone(Abs(B - q * A), Abs(B - q * A), 1, m);
    MulMonotone(0, Abs(A), 0, r);
  }

  lemma AbsDifference(A: int, B: int, q: nat)
    requires A <= 0 <= B || B <= 0 <= A
    ensures Abs(B - q * A) == Abs(B) + q * Abs(A)
    ensures B - q * A <= 0 <= A || A <= 0 <= B - q * A
  {
    if A < 0 {
      assert q * (-A) == -(q * A);
      MulMonotone(0, q, 0, -A);
    } else {
      MulMonotone(0, q, 0, A);
    }
  }

  lemma CollectProducts(a: nat, b: nat, x: nat, m: nat, q: nat, r: nat)
    requires x == q * m + r
    ensures (b + q * a) * m + a * r == a * x + b * m
  {
    assert (b + q * a) * m == b * m + (q * a) * m;
    assert (q * a) * m == a * (q * m);
    assert a * (q * m) + a * r == a * (q * m + r);
  }

  /** Each remainder is the coefficient times the input, modulo n. */
  lemma BezoutStep(A: int, B: int, x: nat, m: nat, x0: int, n: nat)
    requires n > 0 && m > 0
    requires (A * x0) % n == m % n && (B * x0) % n == x % n
    ensures ((B - (x / m) * A) * x0) % n == (x % m) % n
  {
    var q := x / m;
    ModMulCong(q, q, A * x0, m, n);
    ModAddCong(B * x0, x, q * (A * x0), q * m, n);
    assert (B - q * A) * x0 == B * x0 - q * (A * x0) by {
      assert (q * A) * x0 == q * (A * x0);
    }
    assert x - q * m == x % m;
  }

  lemma BezoutStart(x0: int, n: nat)
    requires n > 0
    ensures (0 * x0) % n == n % n && (1 * x0) % n == x0 % n
  {
    ModAddMultiple(0, 1, n);
  }

  /** A Euclidean step keeps the common divisors. */
  lemma CommonDivisorStep(x: nat, m: nat, d: int)
    requires m > 0 && d > 1
    ensures (Divides(d, x) && Divides(d, m)) <==> (Divides(d, m) && Divides(d, x % m))
  {
    var q, r := x / m, x % m;
    assert x == q * m + r;
    if m % d == 0 {
      ModMulCong(q, q, m, 0, d);
      ModAddCong(q * m, 0, r, r, d);
    }
  }

  lemma CoprimeStep(x: nat, m: nat)
    requires m > 0
    ensures Coprime(x, m) <==> Coprime(m, x % m)
  {
    forall d | d > 1
      ensures (Divides(d, x) && Divides(d, m)) <==> (Divides(d, m) && Divides(d, x % m))
    {
      CommonDivisorStep(x, m, d);
    }
  }

  lemma HalfOfModulus(A: int, B: int, x: nat, m: nat, n: nat)
    requires Balanced(A, B, x, m, n) && x > 1 && n > 1
    ensures Abs(A) < n
  {
    MulMonotone(Abs(A), Abs(A), 2, x);
    MulMonotone(0, Abs(B), 0, m);
  }

  lemma CoprimeBase(x: nat, m: nat)
    ensures x == 1 ==> Coprime(x, m)
    ensures x > 1 && m == 0 ==> !Coprime(x, m)
    ensures x == 0 && m > 1 ==> !Coprime(x, m)
  {
    if x == 1 {
      forall d | d > 1 ensures !Divides(d, x) { DivModUnique(1, d, 0, 1); }
    }
    if x > 1 && m == 0 { assert Divides(x, x) && Divides(x, m); }
    if x == 0 && m > 1 { assert Divides(m, x) && Divides(m, m); }
  }

  /** What holds between iterations: x and m are consecutive remainders, and A, B are
      the exact integer coefficients that the wrapping words stand for. */
  ghost predicate EuclidState(x0: nat, n: nat, x: nat, m: nat, A: int, B: int) {
    && n > 1 && Abs(B) < n && Balanced(A, B, x, m, n)
    && (A * x0) % n == m % n && (B * x0) % n == x % n
    && (Coprime(x, m) <==> Coprime(x0, n))
    && (x0 == 0 <==> x == 0) && (x == 0 ==> B == 1)
  }

  lemma EuclidStart(x0: nat, n: nat)
    requires n > 1
    ensures EuclidState(x0, n, x0, n, 0, 1)
  {
    BezoutStart(x0, n);
  }

  lemma EuclidStep(x0: nat, n: nat, x: nat, m: nat, A: int, B: int, q: nat, r: nat, C: int)
    requires EuclidState(x0, n, x, m, A, B) && x > 1 && m > 0
    requires q == x / m && r == x % m && C == B - q * A
    ensures EuclidState(x0, n, m, r, C, A)
  {
    BalancedStep(A, B, x, m, n);
    BezoutStep(A, B, x, m, x0, n);
    CoprimeStep(x, m);
    HalfOfModulus(A, B, x, m, n);
  }

  /** Leaving the loop because a remainder is 0 while x > 1 means a common divisor. */
  lemma EuclidFails(x0: nat, n: nat, x: nat, A: int, B: int)
    requires EuclidState(x0, n, x, 0, A, B) && x > 1
    ensures !Coprime(x0, n) && x0 != 0
  {
    CoprimeBase(x, 0);
  }

  ghost predicate InverseOutcome(x0: nat, n: nat, r: nat) {
    if n > 1 && Coprime(x0, n) then r < n && (r * x0) % n == 1
    else r == if n > 1 && x0 == 0 then 1 else 0
  }

  /** At the end x is 1 for coprime inputs; x is 0 only for the input 0. */
  lemma EuclidEnd(x0: nat, n: nat, x: nat, m: nat, A: int, B: int, b: nat)
    requires EuclidState(x0, n, x, m, A, B) && x <= 1
    requires n < TWO63 && b == U64(B)
    ensures InverseOutcome(x0, n, if S64(b) < 0 then U64(b + n) else b)
  {
    CoprimeBase(x, m);
    CoprimeBase(x0, n);
    SignedWord(B, n);
    if x == 1 { InverseRange(B, x0, n); }
  }

  /** The words a and b hold the coefficients A and B modulo 2^64. */
  ghost predicate Words(x: nat, m: nat, a: nat, b: nat, A: int, B: int) {
    x < TWO63 && m < TWO63 && a == U64(A) && b == U64(B) && S64(x) == x
  }

  /** The loop body of `mulInv`, on words. */
  method Iterate(x: nat, m: nat, a: nat, b: nat, ghost x0: nat, ghost n: nat, ghost A: int, ghost B: int)
    returns (x': nat, m': nat, a': nat, b': nat, ghost A': int)
    requires EuclidState(x0, n, x, m, A, B) && Words(x, m, a, b, A, B) && x > 1 && m > 0
    ensures EuclidState(x0, n, x', m', A', A) && Words(x', m', a', b', A', A) && m' < m
  {
    var q, t := x / m, x % m;
    A' := B - q * A;
    EuclidStep(x0, n, x, m, A, B, q, t, A');
    WrapDifference(A, B, q, A');
    S64Small(m);
    x', m' := m, t;
    a', b' := U64(b - q * a), a;
  }

  /** `mulInv(x, m)`. For m > 1 and x coprime to m, the result is the inverse in
      [0, m); for other positive x it is 0. The input x = 0, which is not coprime
      to any m > 1, yields 1. */
  method MulInv(x0: nat, m0: nat) returns (r: nat)
    requires x0 < TWO63 && m0 < TWO63
    ensures InverseOutcome(x0, m0, r)
  {
    S64Small(m0);
    S64Small(x0);
    if S64(m0) <= 1 { return 0; }
    var x: nat, m: nat, n, a: nat, b: nat := x0, m0, m0, 0, 1;
    ghost var A, B := 0, 1;
    EuclidStart(x0, n);
    while S64(x) > 1
      invariant n == m0 && EuclidState(x0, n, x, m, A, B) && Words(x, m, a, b, A, B)
      decreases m
    {
      if m == 0 {
        EuclidFails(x0, n, x, A, B);
        return 0;
      }
      ghost var A0 := A;
      x, m, a, b, A := Iterate(x, m, a, b, x0, n, A, B);
      B := A0;
    }
    EuclidEnd(x0, n, x, m, A, B, b);
    r := if S64(b) < 0 then U64(b + n) else b;
  }

  lemma WrapDifference(A: int, B: int, q: int, C: int)
    requires C == B - q * A
    ensures U64(U64(B) - q * U64(A)) == U64(C)
  {
    ModMulCong(q, q, U64(A), A, TWO64);
    ModAddCong(U64(B), B, q * U64(A), q * A, TWO64);
  }

  lemma InverseRange(B: int, x0: nat, n: nat)
    requires n > 1 && Abs(B) < n && (B * x0) % n == 1 % n
    ensures var r := if B < 0 then B + n else B;
      0 <= r < n && (r * x0) % n == 1
  {
    DivModUnique(1, n, 0, 1);
    Distribute(B, n, x0);
    assert n * x0 == x0 * n;
    ModAddMultiple(B * x0, x0, n);
  }

  lemma SignedWord(B: int, n: nat)
    requires -TWO63 < B < TWO63 && -B <= n < TWO63
    ensures S64(U64(B)) == B
    ensures U64(B) == if B < 0 then B + TWO64 else B
    ensures B < 0 ==> U64(U64(B) + n) == B + n
  {
  }

  /** There is only one inverse in [0, m). */
  lemma InverseUnique(x: nat, m: nat, r: nat, s: nat)
    requires m > 1 && r < m && s < m && (r * x) % m == 1 && (s * x) % m == 1
    ensures r == s
  {
    DivModUnique(1, m, 0, 1);
    ModMulCong(s * x, 1, r, r, m);
    ModMulCong(r * x, 1, s, s, m);
    MulRotate(s, x, r);
    DivModUnique(r, m, 0, r);
    DivModUnique(s, m, 0, s);
  }

  /** Having an inverse and being coprime are the same thing, so the result of
      `MulInv` decides coprimality. */
  lemma InverseImpliesCoprime(x: nat, m: nat, r: nat)
    requires m > 1 && (r * x) % m == 1
    ensures Coprime(x, m)
  {
    forall d | d > 1
      ensures !(Divides(d, x) && Divides(d, m))
    {
      if Divides(d, x) && Divides(d, m) {
        var k := (r * x) / m;
        assert r * x == k * m + 1;
        ModMulCong(r, r, x, 0, d);
        ModMulCong(k, k, m, 0, d);
        ModAddCong(k * m, 0, 1, 1, d);
        DivModUnique(1, d, 0, 1);
        assert false;
      }
    }
  }
}
