/** Integer arithmetic shared by the models: machine words as residues, and the
    facts about division and remainder that the C operators rely on. */
module Arith {

  const TWO31 := 0x8000_0000
  const TWO32 := 0x1_0000_0000
  const TWO48 := 0x1_0000_0000_0000
  const TWO63 := 0x8000_0000_0000_0000
  const TWO64 := 0x1_0000_0000_0000_0000

  function Pow2(n: nat): (p: nat)
    ensures p > 0
  {
    if n == 0 then 1 else 2 * Pow2(n - 1)
  }

  lemma Pow2Add(a: nat, b: nat)
    ensures Pow2(a + b) == Pow2(a) * Pow2(b)
  {
    if a == 0 {
    } else {
      Pow2Add(a - 1, b);
      assert a + b - 1 == (a - 1) + b;
    }
  }

  lemma Pow2Monotone(a: nat, b: nat)
    requires a <= b
    ensures Pow2(a) <= Pow2(b)
  {
    Pow2Add(a, b - a);
    assert Pow2(a) * 1 <= Pow2(a) * Pow2(b - a);
  }

  lemma Pow2Values()
    ensures Pow2(20) == 0x10_0000 && Pow2(31) == TWO31 && Pow2(32) == TWO32
    ensures Pow2(48) == TWO48 && Pow2(64) == TWO64
  {
    assert Pow2(5) == 32;
    assert Pow2(10) == 1024;
    Pow2Add(10, 10);
    Pow2Add(20, 10);
    assert Pow2(31) == 2 * Pow2(30);
    assert Pow2(32) == 2 * Pow2(31);
    Pow2Add(16, 16);
    Pow2Add(10, 6);
    Pow2Add(32, 16);
    Pow2Add(32, 32);
  }

  // ---------------------------------------------------------------- division

  lemma MultipleBounds(d: int, m: int)
    requires m > 0
    ensures d >= 1 ==> d * m >= m
    ensures d <= -1 ==> d * m <= -m
  {
  }

  lemma DivModUnique(a: int, m: int, q: int, r: int)
    requires m > 0 && 0 <= r < m && a == q * m + r
    ensures a / m == q && a % m == r
  {
    var d := a / m - q;
    assert a == m * (a / m) + a % m;
    assert d * m == r - a % m;
    MultipleBounds(d, m);
  }

  lemma ModAddMultiple(a: int, k: int, m: int)
    requires m > 0
    ensures (a + k * m) % m == a % m
    ensures (a + k * m) / m == a / m + k
  {
    assert a + k * m == (a / m + k) * m + a % m;
    DivModUnique(a + k * m, m, a / m + k, a % m);
  }

  /** Two integers with the same remainder differ by a multiple of the modulus. */
  lemma CongruentDifference(a: int, b: int, m: int) returns (k: int)
    requires m > 0 && a % m == b % m
    ensures a == b + k * m
  {
    k := a / m - b / m;
    assert a == m * (a / m) + a % m;
    assert b == m * (b / m) + b % m;
    assert k * m == m * (a / m) - m * (b / m);
  }

  lemma Distribute(k: int, l: int, m: int)
    ensures (k + l) * m == k * m + l * m
    ensures (k - l) * m == k * m - l * m
  {
  }

  lemma ModAddCong(a: int, a': int, b: int, b': int, m: int)
    requires m > 0 && a % m == a' % m && b % m == b' % m
    ensures (a + b) % m == (a' + b') % m
    ensures (a - b) % m == (a' - b') % m
  {
    ModSumCong(a, a', b, b', m);
    var l := CongruentDifference(b', b, m);
    var c := -b';
    assert -b == c + l * m;
    ModAddMultiple(c, l, m);
    ModSumCong(a, a', -b, -b', m);
  }

  lemma ModSumCong(a: int, a': int, b: int, b': int, m: int)
    requires m > 0 && a % m == a' % m && b % m == b' % m
    ensures (a + b) % m == (a' + b') % m
  {
    var k := CongruentDifference(a, a', m);
    var l := CongruentDifference(b, b', m);
    ModAddMultiple(a' + b, k, m);
    ModAddMultiple(a' + b', l, m);
  }

  lemma ModMulCong(a: int, a': int, b: int, b': int, m: int)
    requires m > 0 && a % m == a' % m && b % m == b' % m
    ensures (a * b) % m == (a' * b') % m
  {
    ModScaleCong(a, a', b, m);
    ModScaleCong(b, b', a', m);
    assert a' * b == b * a' && a' * b' == b' * a';
  }

  lemma ModScaleCong(a: int, a': int, c: int, m: int)
    requires m > 0 && a % m == a' % m
    ensures (a * c) % m == (a' * c) % m
  {
    var k := CongruentDifference(a, a', m);
    ScaleSum(a', k, m, c);
    ModAddMultiple(a' * c, k * c, m);
  }

  lemma ScaleSum(a: int, k: int, m: int, c: int)
    ensures (a + k * m) * c == a * c + (k * c) * m
  {
    Distribute(a, k * m, c);
    assert (k * m) * c == (k * c) * m;
  }

  /** A remainder modulo a multiple of `m` determines the remainder modulo `m`. */
  lemma ModOfMod(a: int, k: int, m: int)
    requires m > 0 && k > 0
    ensures k * m > 0 && (a % (k * m)) % m == a % m
  {
    assert k * m > 0;
    var q := a / (k * m);
    assert a == (k * m) * q + a % (k * m);
    assert (k * m) * q == (k * q) * m;
    ModAddMultiple(a % (k * m), k * q, m);
  }

  /** Position of cell (i, j) in a row-major buffer of width `w`, and back. */
  lemma RowMajor(i: int, j: int, w: int)
    requires 0 <= i < w && 0 <= j
    ensures (j * w + i) / w == j && (j * w + i) % w == i
  {
    DivModUnique(j * w + i, w, j, i);
  }

  lemma MulRotate(a: int, b: int, c: int)
    ensures (a * b) * c == (c * b) * a
  {
    MulAssoc(a, b, c);
    assert b * c == c * b && a * (c * b) == (c * b) * a;
  }

  lemma MulAssoc(a: int, b: int, c: int)
    ensures (a * b) * c == a * (b * c)
  {
  }

  function Times(a: nat, b: nat): nat {
    a * b
  }

  function Square(a: int): nat {
    a * a
  }

  lemma MulMonotone(a: int, b: int, c: int, d: int)
    requires 0 <= a <= b && 0 <= c <= d
    ensures 0 <= a * c <= b * d
  {
    assert a * c <= b * c;
    assert b * c <= b * d;
    assert 0 <= a * c;
  }

  /** Quotients are the largest multipliers: k*n <= t exactly when k <= t/n. */
  lemma QuotientBound(k: int, n: int, t: int)
    requires n > 0
    ensures k * n <= t <==> k <= t / n
  {
    var q := t / n;
    assert t == n * q + t % n;
    MultipleBounds(k - q, n);
    assert (k - q) * n == k * n - q * n;
  }

  lemma ExactQuotient(t: int, n: int, q: int)
    requires n > 0 && t == q * n
    ensures t / n == q && t % n == 0
  {
    DivModUnique(t, n, q, 0);
  }

  // ------------------------------------------------------- bits and powers of two

  /** Bitwise AND and XOR of two non-negative numbers of any width. */
  function And(a: nat, b: nat): nat
    decreases a
  {
    if a == 0 || b == 0 then 0
    else (if a % 2 == 1 && b % 2 == 1 then 1 else 0) + 2 * And(a / 2, b / 2)
  }

  function Xor(a: nat, b: nat): nat
    decreases a + b
  {
    if a == 0 && b == 0 then 0
    else (if a % 2 != b % 2 then 1 else 0) + 2 * Xor(a / 2, b / 2)
  }

  lemma {:induction false} AndSelf(a: nat)
    ensures And(a, a) == a
  {
    if a > 0 { AndSelf(a / 2); }
  }

  /** The test `(n & (n - 1)) == 0` recognises exactly the powers of two. */
  lemma {:induction false} AndPredecessor(n: nat) returns (k: nat)
    requires n > 0 && And(n - 1, n) == 0
    ensures n == Pow2(k)
  {
    if n == 1 {
      k := 0;
    } else {
      AndSelf(n / 2);
      assert n % 2 == 0;
      assert (n - 1) / 2 == n / 2 - 1;
      var h := AndPredecessor(n / 2);
      k := h + 1;
    }
  }

  /** The low `k` bits of a number. */
  function LowBits(a: nat, k: nat): nat
    decreases k
  {
    if k == 0 then 0 else a % 2 + 2 * LowBits(a / 2, k - 1)
  }

  lemma {:induction false} LowBitsMod(a: nat, k: nat)
    ensures LowBits(a, k) == a % Pow2(k)
    decreases k
  {
    if k > 0 {
      LowBitsMod(a / 2, k - 1);
      HalfMod(a, Pow2(k - 1));
    }
  }

  lemma HalfMod(a: nat, p: nat)
    requires p > 0
    ensures a % (2 * p) == a % 2 + 2 * ((a / 2) % p)
  {
    var h := a / 2;
    var q, r := h / p, h % p;
    assert h == p * q + r;
    assert (2 * p) * q == 2 * (p * q);
    DivModUnique(a, 2 * p, q, a % 2 + 2 * r);
  }

  lemma {:induction false} XorLowBits(a: nat, a': nat, b: nat, k: nat)
    requires LowBits(a, k) == LowBits(a', k)
    ensures LowBits(Xor(a, b), k) == LowBits(Xor(a', b), k)
    decreases k
  {
    if k > 0 {
      XorLowBits(a / 2, a' / 2, b / 2, k - 1);
      XorHalf(a, b);
      XorHalf(a', b);
    }
  }

  /** The low `k` bits of `a ^ b` depend only on the low `k` bits of `a`. */
  lemma XorMod(a: nat, a': nat, b: nat, k: nat)
    requires a % Pow2(k) == a' % Pow2(k)
    ensures Xor(a, b) % Pow2(k) == Xor(a', b) % Pow2(k)
  {
    LowBitsMod(a, k);
    LowBitsMod(a', k);
    XorLowBits(a, a', b, k);
    LowBitsMod(Xor(a, b), k);
    LowBitsMod(Xor(a', b), k);
  }

  lemma XorHalf(a: nat, b: nat)
    ensures Xor(a, b) / 2 == Xor(a / 2, b / 2)
    ensures Xor(a, b) % 2 == if a % 2 != b % 2 then 1 else 0
  {
  }

  /** An odd multiple of h times an odd number is an odd multiple of h. */
  lemma OddTimesOdd(g: int, d: int, h: int)
    requires h > 0 && g % (2 * h) == h && d % 2 == 1
    ensures (g * d) % (2 * h) == h
  {
    var k, t := g / (2 * h), d / 2;
    assert g == (2 * h) * k + h;
    assert d == 2 * t + 1;
    var odd := 2 * (k * t) + k + t;
    calc {
      g * d;
      (2 * (h * k) + h) * (2 * t + 1);
      4 * ((h * k) * t) + 2 * (h * t) + 2 * (h * k) + h;
      { assert (h * k) * t == h * (k * t); }
      (2 * h) * (2 * (k * t)) + (2 * h) * t + (2 * h) * k + h;
      odd * (2 * h) + h;
    }
    DivModUnique(g * d, 2 * h, odd, h);
  }

  // ------------------------------------------------------------ machine words

  /** Reduction to an unsigned 64-bit word. */
  function U64(a: int): (r: nat)
    ensures r < TWO64
  {
    a % TWO64
  }

  /** The value of a 64-bit word read as a two's complement signed number. */
  function S64(a: int): (r: int)
    ensures -TWO63 <= r < TWO63
  {
    var u := a % TWO64;
    if u < TWO63 then u else u - TWO64
  }

  lemma S64Small(x: nat)
    requires x < TWO63
    ensures S64(x) == x && U64(x) == x
  {
  }

  /** The value of a 32-bit word read as a two's complement signed number. */
  function S32(a: int): (r: int)
    ensures -TWO31 <= r < TWO31
  {
    var u := a % TWO32;
    if u < TWO31 then u else u - TWO32
  }

  /** Differences of small numbers survive the trip through unsigned words. */
  lemma WrappedDifference(v: int, w: int)
    requires -TWO63 <= v - w < TWO63
    ensures U64(U64(v) - U64(w)) == U64(v - w)
    ensures S64(U64(v - w)) == v - w
    ensures v >= w ==> U64(v - w) == v - w
  {
    ModAddCong(U64(v), v, U64(w), w, TWO64);
  }

  /** C's `%` on signed numbers: the remainder takes the sign of the dividend. */
  function TruncMod(a: int, m: int): (r: int)
    requires m > 0
    ensures -m < r < m
  {
    if a >= 0 then a % m else -((-a) % m)
  }

  /** C's `/` on signed numbers rounds toward zero. */
  function TruncDiv(a: int, m: int): int
    requires m > 0
  {
    if a >= 0 then a / m else -((-a) / m)
  }
}
