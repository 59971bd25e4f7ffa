/** Bounded integers from raw random bits (rng.h): Java's rejection rule on 31-bit
    draws and the multiply-and-reject rule on 32-bit draws, and their fairness. */
module BoundedDraws {
  import opened Arith

  predicate IsPowerOfTwoTest(n: nat)
    requires n > 0
  {
    And(n - 1, n) == 0
  }

  /** The loop condition `(int32_t)((uint32_t)bits - val + m) >= 0`, with m = n - 1;
      the power-of-two branch takes every draw. */
  predicate Accepted31(n: nat, bits: nat)
    requires n > 0
  {
    IsPowerOfTwoTest(n) || S32(bits - bits % n + (n - 1)) >= 0
  }

  function Value31(n: nat, bits: nat): nat
    requires n > 0
  {
    if IsPowerOfTwoTest(n) then (n * bits) / TWO31 else bits % n
  }

  /** The loop condition of the 32-bit form: the low word of x * n is large enough. */
  predicate Accepted32(n: nat, x: nat)
    requires 0 < n < TWO32
  {
    (x * n) % TWO32 >= (TWO32 - n) % n
  }

  function Value32(n: nat, x: nat): nat {
    (x * n) / TWO32
  }

  // -------------------------------------------------------------------- counting

  /** An interval of integers has as many elements as its length. */
  lemma {:induction false} IntervalCount(lo: int, len: nat, s: set<int>)
    requires forall x :: x in s <==> lo <= x < lo + len
    ensures |s| == len
  {
    if len == 0 {
      assert forall x :: x !in s;
    } else {
      var last := lo + len - 1;
      IntervalCount(lo, len - 1, s - {last});
    }
  }

  /** Each residue v occurs q times among 0 .. q*n - 1. */
  lemma {:induction false} ResidueCount(n: nat, q: nat, v: nat, s: set<int>)
    requires v < n
    requires forall x :: x in s <==> 0 <= x < q * n && x % n == v
    ensures |s| == q
    decreases q
  {
    if q == 0 {
      assert forall x :: x !in s;
    } else {
      var last := (q - 1) * n + v;
      ResidueBlock(n, q, v, last);
      forall x ensures x in s - {last} <==> 0 <= x < (q - 1) * n && x % n == v {
        ResidueBlock(n, q, v, x);
      }
      ResidueCount(n, q - 1, v, s - {last});
    }
  }

  lemma ResidueBlock(n: nat, q: nat, v: nat, x: int)
    requires v < n && q > 0
    ensures 0 <= x < q * n && x % n == v <==> (0 <= x < (q - 1) * n && x % n == v) || x == (q - 1) * n + v
    ensures !((q - 1) * n + v < (q - 1) * n)
  {
    var b := (q - 1) * n;
    assert q * n == b + n by { Distribute(q - 1, 1, n); }
    assert b >= 0 by { MulMonotone(0, q - 1, 0, n); }
    if b <= x < b + n {
      DivModUnique(x, n, q - 1, x - b);
    }
  }

  // ------------------------------------------------------- Java's 31-bit rejection

  /** Without a power of two, exactly the draws below the largest multiple of n
      that fits in 31 bits are accepted. */
  lemma AcceptedBelow(n: nat, bits: nat)
    requires 0 < n < TWO31 && bits < TWO31 && !IsPowerOfTwoTest(n)
    ensures Accepted31(n, bits) <==> bits < (TWO31 / n) * n
  {
    var b, q := bits / n, TWO31 / n;
    assert Accepted31(n, bits) <==> (b + 1) * n <= TWO31 by { SignOfBlockEnd(n, bits); }
    QuotientBound(b + 1, n, TWO31);
    QuotientBound(q, n, bits);
  }

  lemma SignOfBlockEnd(n: nat, bits: nat)
    requires 0 < n < TWO31 && bits < TWO31
    ensures S32(bits - bits % n + (n - 1)) >= 0 <==> (bits / n + 1) * n <= TWO31
  {
    assert bits == n * (bits / n) + bits % n;
    assert (bits / n + 1) * n == n * (bits / n) + n;
  }

  /** A power of two not above 2^31 divides 2^31. */
  lemma PowerDivides(n: nat) returns (q: nat)
    requires 0 < n <= TWO31 && IsPowerOfTwoTest(n)
    ensures TWO31 == q * n && TWO31 / n == q
  {
    var k := AndPredecessor(n);
    Pow2Values();
    q := Cofactor(n, k, 31, TWO31);
    ExactQuotient(TWO31, n, q);
  }

  lemma Cofactor(n: nat, k: nat, e: nat, t: nat) returns (q: nat)
    requires n == Pow2(k) <= t == Pow2(e)
    ensures t == q * n
  {
    if k > e {
      Pow2Monotone(e + 1, k);
    }
    q := Pow2(e - k);
    Pow2Add(e - k, k);
  }

  /** Scaling a draw by n and dividing by n*q groups the draws into blocks of q. */
  lemma ScaledBlock(n: nat, q: nat, v: int, b: int)
    requires n > 0 && q > 0
    ensures n * q > 0 && ((n * b) / (n * q) == v <==> v * q <= b < v * q + q)
  {
    var t := n * q;
    MulMonotone(1, n, 1, q);
    QuotientBound(v, t, n * b);
    QuotientBound(v + 1, t, n * b);
    Distribute(v, 1, q);
    ScaleCompare(n, v, q, b);
    ScaleCompare(n, v + 1, q, b);
  }

  lemma ScaleCompare(n: nat, v: int, q: nat, b: int)
    requires n > 0
    ensures v * (n * q) <= n * b <==> v * q <= b
  {
    assert v * (n * q) == n * (v * q);
    var d := b - v * q;
    assert n * b - n * (v * q) == n * d;
    MultipleBounds(d, n);
    assert n * d == d * n;
  }

  /** Fairness of `nextInt` and `xNextIntJ`: every value 0..n-1 is produced by the
      same number of accepted 31-bit draws, namely floor(2^31 / n). */
  lemma Fair31(n: nat, v: nat, s: set<int>)
    requires 0 < n <= TWO31 && v < n
    requires forall b :: b in s <==> 0 <= b < TWO31 && Accepted31(n, b) && Value31(n, b) == v
    ensures |s| == TWO31 / n
  {
    if IsPowerOfTwoTest(n) {
      FairPower(n, v, s);
    } else {
      Pow2Values();
      if n == TWO31 { PowerPassesTest(n, 31); }
      FairRemainder(n, v, s);
    }
  }

  lemma FairRemainder(n: nat, v: nat, s: set<int>)
    requires 0 < n < TWO31 && v < n && !IsPowerOfTwoTest(n)
    requires forall b :: b in s <==> 0 <= b < TWO31 && Accepted31(n, b) && Value31(n, b) == v
    ensures |s| == TWO31 / n
  {
    var q := TWO31 / n;
    var top := q * n;
    QuotientBound(q, n, TWO31);
    assert top <= TWO31;
    forall b ensures b in s <==> 0 <= b < top && b % n == v {
      if 0 <= b < TWO31 { AcceptedBelow(n, b); }
    }
    ResidueCount(n, q, v, s);
  }

  lemma FairPower(n: nat, v: nat, s: set<int>)
    requires 0 < n <= TWO31 && v < n && IsPowerOfTwoTest(n)
    requires forall b :: b in s <==> 0 <= b < TWO31 && Value31(n, b) == v
    ensures |s| == TWO31 / n
  {
    var q := PowerDivides(n);
    FairBlocks(n, q, TWO31, v, s);
  }

  lemma FairBlocks(n: nat, q: nat, t: nat, v: nat, s: set<int>)
    requires v < n && t == q * n && t > 0
    requires forall b :: b in s <==> 0 <= b < t && (n * b) / t == v
    ensures |s| == q
  {
    var lo := v * q;
    assert q > 0 && t == n * q;
    assert 0 <= lo && lo + q <= t by { Distribute(v, 1, q); MulMonotone(v + 1, n, q, q); }
    forall b ensures b in s <==> lo <= b < lo + q {
      ScaledBlock(n, q, v, b);
    }
    IntervalCount(lo, q, s);
  }

  lemma PowerPassesTest(n: nat, k: nat)
    requires n == Pow2(k)
    ensures IsPowerOfTwoTest(n)
  {
    AndBelowPower(k);
  }

  lemma {:induction false} AndBelowPower(k: nat)
    ensures And(Pow2(k) - 1, Pow2(k)) == 0
  {
    if k > 0 { AndBelowPower(k - 1); }
  }

  /** Above 2^31 Java's rule (as xNextIntJ applies it to unsigned bounds) accepts no
      draw at all, so the redraw loop cannot end. */
  lemma NoDrawAbove(n: nat, bits: nat)
    requires TWO31 < n < TWO32 && bits < TWO31
    ensures !Accepted31(n, bits)
  {
    assert !IsPowerOfTwoTest(n) by {
      if IsPowerOfTwoTest(n) {
        NoPowerBetween(n);
      }
    }
    DivModUnique(bits, n, 0, bits);
  }

  lemma NoPowerBetween(n: nat)
    requires n > 0 && IsPowerOfTwoTest(n)
    ensures n <= TWO31 || n >= TWO32
  {
    var k := AndPredecessor(n);
    Pow2Values();
    if k <= 31 { Pow2Monotone(k, 31); } else { Pow2Monotone(32, k); }
  }

  // -------------------------------------------------- 32-bit multiply-and-reject

  /** An interval of q*n integers contains q multiples of n. */
  lemma MultiplesInInterval(n: nat, q: nat, lo: nat, s: set<int>)
    requires n > 0
    requires forall x :: x in s <==> lo <= x * n < lo + q * n
    ensures |s| == q
  {
    var first := (lo + n - 1) / n;
    assert lo <= first * n < lo + n by {
      assert lo + n - 1 == n * first + (lo + n - 1) % n;
    }
    forall x ensures x in s <==> first <= x < first + q {
      if x < first {
        MulOrder(x, first - 1, n);
        assert (first - 1) * n == first * n - n;
      } else {
        MulOrder(first, x, n);
        assert (first + q) * n == first * n + q * n;
        if x < first + q {
          MulOrder(x, first + q - 1, n);
          assert (first + q - 1) * n == first * n + q * n - n;
        } else {
          MulOrder(first + q, x, n);
        }
      }
    }
    IntervalCount(first, q, s);
  }

  lemma MulOrder(a: int, b: int, n: nat)
    requires a <= b
    ensures a * n <= b * n
  {
  }

  /** Fairness of `xNextInt`: every value 0..n-1 is produced by the same number of
      accepted 32-bit draws, namely floor(2^32 / n). */
  lemma Fair32(n: nat, v: nat, s: set<int>)
    requires 0 < n < TWO32 && v < n
    requires forall x :: x in s <==> 0 <= x < TWO32 && Accepted32(n, x) && Value32(n, x) == v
    ensures |s| == TWO32 / n
  {
    var q, t := TWO32 / n, TWO32 % n;
    assert TWO32 == q * n + t;
    ModAddMultiple(TWO32, -1, n);
    assert (TWO32 - n) % n == t;
    var lo := v * TWO32 + t;
    assert lo + q * n == (v + 1) * TWO32;
    forall x ensures x in s <==> lo <= x * n < lo + q * n {
      ProductWindow(n, v, t, x);
    }
    MultiplesInInterval(n, q, lo, s);
  }

  lemma ProductWindow(n: nat, v: nat, t: nat, x: int)
    requires 0 < n < TWO32 && v < n && t == (TWO32 - n) % n
    ensures (0 <= x < TWO32 && Accepted32(n, x) && Value32(n, x) == v)
       <==> v * TWO32 + t <= x * n < (v + 1) * TWO32
  {
    var p := x * n;
    assert p == TWO32 * (p / TWO32) + p % TWO32;
    QuotientBound(v, TWO32, p);
    QuotientBound(v + 1, TWO32, p);
    if v * TWO32 + t <= p < (v + 1) * TWO32 {
      if x < 0 { MulOrder(x, 0, n); }
      assert x >= 0;
      assert p < n * TWO32 by { MulOrder(v + 1, n, TWO32); }
      if x >= TWO32 { MulOrder(TWO32, x, n); }
      assert x < TWO32;
    }
  }
}
