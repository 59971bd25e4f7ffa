/** The 48-bit linear congruential generator of java.util.Random (rng.h):
    stepping, jumping ahead, and bounded draws by rejection. */
module JavaRandom {
  import opened Arith
  import opened BoundedDraws

  const MULT: nat := 0x5deece66d
  const INC: nat := 0xb

  /** One step of the generator on a 48-bit state. */
  function Step(s: nat): (r: nat)
    ensures r < TWO48
  {
    (s * MULT + INC) % TWO48
  }

  /** `n` successive steps. */
  function Steps(s: nat, n: nat): nat
    decreases n
  {
    if n == 0 then s else Steps(Step(s), n - 1)
  }

  lemma {:induction false} StepsAdd(s: nat, m: nat, n: nat)
    ensures Steps(s, m + n) == Steps(Steps(s, m), n)
    decreases m
  {
    if m > 0 { StepsAdd(Step(s), m - 1, n); }
  }

  lemma StepsNext(s: nat, n: nat)
    ensures Steps(s, n + 1) == Step(Steps(s, n))
  {
    StepsAdd(s, n, 1);
    assert Steps(Steps(s, n), 1) == Step(Steps(s, n));
  }

  // ------------------------------------------------ affine maps and their powers

  /** `n`-fold application of x -> p*x + q over the integers. */
  function Affine(p: int, q: int, n: nat, x: int): int
    decreases n
  {
    if n == 0 then x else Affine(p, q, n - 1, p * x + q)
  }

  lemma {:induction false} AffineCong(p: int, p': int, q: int, q': int, n: nat, x: int, x': int, m: int)
    requires m > 0 && p % m == p' % m && q % m == q' % m && x % m == x' % m
    ensures Affine(p, q, n, x) % m == Affine(p', q', n, x') % m
    decreases n
  {
    if n > 0 {
      ModMulCong(p, p', x, x', m);
      ModAddCong(p * x, p' * x', q, q', m);
      AffineCong(p, p', q, q', n - 1, p * x + q, p' * x' + q', m);
    }
  }

  /** Squaring the map halves the number of applications. */
  lemma {:induction false} AffineSquare(p: int, q: int, n: nat, x: int)
    ensures Affine(p, q, 2 * n, x) == Affine(p * p, (p + 1) * q, n, x)
    decreases n
  {
    if n > 0 {
      var y := p * (p * x + q) + q;
      assert y == (p * p) * x + (p + 1) * q;
      assert Affine(p, q, 2 * n, x) == Affine(p, q, 2 * n - 1, p * x + q) == Affine(p, q, 2 * n - 2, y);
      AffineSquare(p, q, n - 1, y);
    }
  }

  lemma {:induction false} AffineAdd(p: int, q: int, m: nat, n: nat, x: int)
    ensures Affine(p, q, m + n, x) == Affine(p, q, n, Affine(p, q, m, x))
    decreases m
  {
    if m > 0 { AffineAdd(p, q, m - 1, n, p * x + q); }
  }

  /** The generator is the affine map reduced modulo 2^48. */
  lemma {:induction false} StepsAreAffine(s: nat, n: nat)
    ensures Steps(s, n) % TWO48 == Affine(MULT, INC, n, s) % TWO48
    decreases n
  {
    if n > 0 {
      StepsAreAffine(Step(s), n - 1);
      AffineCong(MULT, MULT, INC, INC, n - 1, Step(s), MULT * s + INC, TWO48);
    }
  }

  lemma StepsRange(s: nat, n: nat)
    requires s < TWO48 || n > 0
    ensures Steps(s, n) < TWO48
  {
    if n > 0 { StepsNext(s, n - 1); }
  }

  // ----------------------------------------------------------------- full period

  /** 1 + p + ... + p^(n-1). */
  function GeometricSum(p: int, n: nat): int {
    if n == 0 then 0 else 1 + p * GeometricSum(p, n - 1)
  }

  lemma {:induction false} AffineClosedForm(p: int, q: int, n: nat, x: int)
    ensures Affine(p, q, n, x) == x + GeometricSum(p, n) * ((p - 1) * x + q)
    decreases n
  {
    if n > 0 {
      AffineClosedForm(p, q, n - 1, p * x + q);
      ClosedFormStep(p, q, x, GeometricSum(p, n - 1));
    }
  }

  lemma ClosedFormStep(p: int, q: int, x: int, g: int)
    ensures (p * x + q) + g * ((p - 1) * (p * x + q) + q) == x + (1 + p * g) * ((p - 1) * x + q)
  {
    var d := (p - 1) * x + q;
    Distribute(p, 1, x);
    assert p * x + q == x + d;
    assert (p - 1) * (x + d) == (p - 1) * x + (p - 1) * d;
    Distribute(p, 1, d);
    assert (p - 1) * (x + d) + q == p * d;
    assert g * (p * d) == (p * g) * d;
    Distribute(1, p * g, d);
  }

  lemma AffineFromZero(p: int, n: nat)
    ensures Affine(p, 1, n, 0) == GeometricSum(p, n)
  {
    AffineClosedForm(p, 1, n, 0);
    assert (p - 1) * 0 == 0;
    assert GeometricSum(p, n) * 1 == GeometricSum(p, n);
  }

  /** Doubling: the sum of 2n powers is the sum of n powers times (1 + p^n), and
      p^n is 1 + (p-1) times the sum. */
  lemma GeometricDouble(p: int, n: nat)
    ensures GeometricSum(p, 2 * n) == GeometricSum(p, n) * (2 + (p - 1) * GeometricSum(p, n))
  {
    var g := GeometricSum(p, n);
    AffineAdd(p, 1, n, n, 0);
    AffineFromZero(p, n);
    AffineFromZero(p, 2 * n);
    AffineClosedForm(p, 1, n, g);
    PullOut(g, (p - 1) * g);
  }

  lemma PullOut(g: int, u: int)
    ensures g + g * (u + 1) == g * (2 + u)
  {
  }

  /** With a multiplier that is 1 modulo 4, 2^e steps move the state by exactly
      2^e modulo 2^(e+1) times an odd number. */
  lemma {:induction false} SumOfPowerOfTwoTerms(p: int, e: nat)
    requires p % 4 == 1
    ensures GeometricSum(p, Pow2(e)) % Pow2(e + 1) == Pow2(e)
  {
    if e == 0 {
      assert GeometricSum(p, 1) == 1 + p * GeometricSum(p, 0) == 1;
    } else {
      var h := Pow2(e - 1);
      var g := GeometricSum(p, h);
      SumOfPowerOfTwoTerms(p, e - 1);
      GeometricDouble(p, h);
      DoublingKeepsOdd(p, g, h);
    }
  }

  lemma DoublingKeepsOdd(p: int, g: int, h: int)
    requires p % 4 == 1 && h > 0 && g % (2 * h) == h
    ensures (g * (2 + (p - 1) * g)) % (4 * h) == 2 * h
  {
    var r := (p - 1) / 4;
    assert p - 1 == 4 * r;
    var t := r * g;
    assert (4 * r) * g == 4 * t;
    OddTimesOdd(g, 2 * t + 1, h);
    var x := g * (2 * t + 1);
    assert g * (2 + 4 * t) == 2 * x;
    assert 2 * x == (x / (2 * h)) * (4 * h) + 2 * h by { assert x == (2 * h) * (x / (2 * h)) + h; }
    DivModUnique(2 * x, 4 * h, x / (2 * h), 2 * h);
  }

  /** 2^e steps from any state add exactly 2^e modulo 2^(e+1). */
  lemma AdvanceHalf(p: int, q: int, y: int, e: nat)
    requires p % 4 == 1 && q % 2 == 1
    ensures Affine(p, q, Pow2(e), y) % Pow2(e + 1) == (y + Pow2(e)) % Pow2(e + 1)
  {
    var h := Pow2(e);
    AffineClosedForm(p, q, h, y);
    SumOfPowerOfTwoTerms(p, e);
    assert Pow2(e + 1) == 2 * h;
    var d := (p - 1) * y + q;
    OddIncrement(p, q, y);
    AddOddMultiple(GeometricSum(p, h), d, y, h);
  }

  lemma OddIncrement(p: int, q: int, y: int)
    requires p % 2 == 1 && q % 2 == 1
    ensures ((p - 1) * y + q) % 2 == 1
  {
    var k := (p - 1) / 2;
    assert (2 * k) * y == 2 * (k * y);
  }

  lemma AddOddMultiple(g: int, d: int, y: int, h: int)
    requires h > 0 && g % (2 * h) == h && d % 2 == 1
    ensures (y + g * d) % (2 * h) == (y + h) % (2 * h)
  {
    OddTimesOdd(g, d, h);
    var x := g * d;
    assert x == (2 * h) * (x / (2 * h)) + h;
    ModAddMultiple(y + h, x / (2 * h), 2 * h);
  }

  /** Every residue modulo 2^e is reached within 2^e steps from any start. */
  lemma {:induction false} ReachModulo(p: int, q: int, s: int, t: int, e: nat) returns (n: nat)
    requires p % 4 == 1 && q % 2 == 1
    ensures n < Pow2(e) && Affine(p, q, n, s) % Pow2(e) == t % Pow2(e)
  {
    if e == 0 {
      n := 0;
    } else {
      n := ReachModulo(p, q, s, t, e - 1);
      n := ExtendReach(p, q, s, t, e - 1, n);
    }
  }

  lemma ExtendReach(p: int, q: int, s: int, t: int, e: nat, n: nat) returns (n': nat)
    requires p % 4 == 1 && q % 2 == 1
    requires n < Pow2(e) && Affine(p, q, n, s) % Pow2(e) == t % Pow2(e)
    ensures n' < Pow2(e + 1) && Affine(p, q, n', s) % Pow2(e + 1) == t % Pow2(e + 1)
  {
    var h, m := Pow2(e), Pow2(e + 1);
    var y := Affine(p, q, n, s);
    if t % m == y % m {
      n' := n;
    } else {
      n' := n + h;
      OtherHalf(t, y, h);
      AdvanceHalf(p, q, y, e);
      AffineAdd(p, q, n, h, s);
      assert Affine(p, q, n', s) == Affine(p, q, h, y);
    }
  }

  lemma OtherHalf(t: int, y: int, h: int)
    requires h > 0 && t % h == y % h && t % (2 * h) != y % (2 * h)
    ensures t % (2 * h) == (y + h) % (2 * h)
  {
    var k := CongruentDifference(t, y, h);
    var j := k / 2;
    assert k == 2 * j || k == 2 * j + 1;
    assert (2 * j) * h == j * (2 * h);
    ModAddMultiple(y, j, 2 * h);
    assert (2 * j + 1) * h == j * (2 * h) + h;
    ModAddMultiple(y + h, j, 2 * h);
  }

  /** The generator has full period: from every state, every state is reached in
      fewer than 2^48 steps. */
  lemma FullPeriod(s: nat, t: nat) returns (n: nat)
    requires s < TWO48 && t < TWO48
    ensures n < TWO48 && Steps(s, n) == t
  {
    Pow2Values();
    n := ReachModulo(MULT, INC, s, t, 48);
    StepsAreAffine(s, n);
    StepsRange(s, n);
  }

  // ------------------------------------------------------------- the generator object

  /** The 31 bits that a state yields. */
  function Bits31(s: nat): nat {
    s / 0x2_0000
  }

  lemma Bits31Range(s: nat)
    requires s < TWO48
    ensures Bits31(s) < TWO31
  {
  }

  /** One step on 64-bit words: the wrap-around of the product and of the sum is
      invisible below bit 48. */
  lemma WrapIsInvisible(x: int)
    ensures U64(x) % TWO48 == x % TWO48
  {
    ModOfMod(x, 0x1_0000, TWO48);
  }

  class Random {
    var seed: nat

    predicate Valid()
      reads this
    {
      seed < TWO48
    }

    /** `setSeed`: scrambles the user's value. */
    constructor (value: nat)
      ensures Valid() && seed == Xor(value, MULT) % TWO48
    {
      seed := Xor(value, MULT) % TWO48;
    }

    /** `next(bits)`: steps the state and returns its top bits as a C int. */
    method Next(bits: nat) returns (r: int)
      requires Valid() && 0 < bits <= 48
      modifies this
      ensures Valid() && seed == Steps(old(seed), 1)
      ensures r == S32(seed / Pow2(48 - bits))
      ensures bits == 31 ==> r == Bits31(seed) && 0 <= r < TWO31
    {
      WrapIsInvisible(U64(seed * MULT) + INC);
      WrapIsInvisible(seed * MULT);
      ModAddCong(U64(seed * MULT), seed * MULT, INC, INC, TWO48);
      seed := U64(U64(seed * MULT) + INC) % TWO48;
      assert seed == Step(old(seed)) == Steps(old(seed), 1);
      if bits == 31 {
        Pow2Seventeen();
        Bits31Range(seed);
      }
      r := S32(seed / Pow2(48 - bits));
    }

    /** `nextInt(n)`: draws until a draw is accepted. It always terminates, and the
        result is the value of the first accepted draw after the current state. */
    method NextInt(n: int) returns (val: int, ghost draws: nat)
      requires Valid() && 0 < n < TWO31
      modifies this
      ensures Valid() && draws >= 1 && seed == Steps(old(seed), draws)
      ensures Accepted31(n, Bits31(seed)) && val == Value31(n, Bits31(seed)) && 0 <= val < n
      ensures forall i :: 1 <= i < draws ==> !Accepted31(n, Bits31(Steps(old(seed), i)))
    {
      var m := n - 1;
      var bits := Next(31);
      draws := 1;
      if And(m, n) == 0 {
        ScaledRange(n, bits);
        val := U64(n * bits) / TWO31;
      } else {
        val := bits % n;
        ghost var left := FullPeriod(seed, 0);
        while S32(bits - val + m) < 0
          invariant Valid() && seed == Steps(old(seed), draws) && draws >= 1
          invariant bits == Bits31(seed) && val == bits % n
          invariant Steps(seed, left) == 0
          invariant forall i :: 1 <= i < draws ==> !Accepted31(n, Bits31(Steps(old(seed), i)))
          decreases left
        {
          RejectedBeforeZero(n, seed, left);
          StepsNext(old(seed), draws);
          bits := Next(31);
          draws, left := draws + 1, left - 1;
          val := bits % n;
        }
      }
    }

    /** `skipNextN(n)`: `n` steps at once, by repeated squaring of the affine map on
        wrapping 64-bit words; only the final result is cut to 48 bits. */
    method SkipNextN(n: nat)
      requires Valid() && n < TWO64
      modifies this
      ensures Valid() && seed == Steps(old(seed), n)
    {
      var m, a, im, ia, k := 1, 0, MULT, INC, n;
      ghost var target := Affine(MULT, INC, n, seed) % TWO64;
      while k > 0
        invariant seed == old(seed)
        invariant Affine(im, ia, k, m * seed + a) % TWO64 == target
        decreases k
      {
        ghost var x := m * seed + a;
        if k % 2 == 1 {
          ApplyOnce(im, ia, m, a, seed);
          m, a := U64(m * im), U64(im * a + ia);
          AffineCong(im, im, ia, ia, k - 1, im * x + ia, m * seed + a, TWO64);
        }
        SquareOnce(im, ia, k / 2, m * seed + a);
        ia, im := U64(U64(im + 1) * ia), U64(im * im);
        k := k / 2;
      }
      SkipResult(seed, n, m, a);
      seed := U64(seed * m + a) % TWO48;
    }
  }

  lemma Pow2Seventeen()
    ensures Pow2(17) == 0x2_0000
  {
    assert Pow2(8) == 0x100;
    Pow2Add(8, 8);
    Pow2Add(16, 1);
  }

  lemma ScaledRange(n: nat, bits: nat)
    requires 0 < n < TWO31 && bits < TWO31
    ensures U64(n * bits) == n * bits && n * bits / TWO31 < n
  {
    MulMonotone(n, TWO31, bits, TWO31);
    QuotientBound(n, TWO31, n * bits);
    MultipleBounds(TWO31 - bits, n);
  }

  /** State 0 yields the draw 0, which every bound accepts; so a rejected state lies
      strictly before the next visit to state 0. */
  lemma RejectedBeforeZero(n: nat, s: nat, left: nat)
    requires 0 < n < TWO31 && s < TWO48 && Steps(s, left) == 0 && !Accepted31(n, Bits31(s))
    ensures left > 0 && Steps(Step(s), left - 1) == 0
  {
    ZeroAccepted(n);
  }

  lemma ZeroAccepted(n: nat)
    requires 0 < n < TWO31
    ensures Accepted31(n, Bits31(0))
  {
  }

  lemma ApplyOnce(im: int, ia: int, m: int, a: int, s: int)
    ensures (im * (m * s + a) + ia) % TWO64 == (U64(m * im) * s + U64(im * a + ia)) % TWO64
  {
    ModMulCong(U64(m * im), m * im, s, s, TWO64);
    ModAddCong(U64(m * im) * s, (m * im) * s, U64(im * a + ia), im * a + ia, TWO64);
    assert (m * im) * s + (im * a + ia) == im * (m * s + a) + ia by {
      assert im * (m * s + a) == im * (m * s) + im * a;
      assert im * (m * s) == (m * im) * s;
    }
  }

  lemma WordKept(a: int)
    ensures U64(a) % TWO64 == a % TWO64
  {
  }

  lemma WordProduct(a: int, b: int)
    ensures U64(U64(a) * b) % TWO64 == (a * b) % TWO64
  {
    WordKept(a);
    WordKept(U64(a) * b);
    ModMulCong(U64(a), a, b, b, TWO64);
  }

  lemma SquareOnce(im: int, ia: int, h: nat, x: int)
    ensures Affine(im, ia, 2 * h, x) % TWO64 == Affine(U64(im * im), U64(U64(im + 1) * ia), h, x) % TWO64
  {
    AffineSquare(im, ia, h, x);
    WordProduct(im + 1, ia);
    WordKept(im * im);
    AffineCong(im * im, U64(im * im), (im + 1) * ia, U64(U64(im + 1) * ia), h, x, x, TWO64);
  }

  lemma SkipResult(s: nat, n: nat, m: int, a: int)
    requires s < TWO48
    requires (m * s + a) % TWO64 == Affine(MULT, INC, n, s) % TWO64
    ensures U64(s * m + a) % TWO48 == Steps(s, n)
  {
    assert s * m == m * s;
    SkipWord(s, n, s * m + a);
  }

  lemma SkipWord(s: nat, n: nat, w: int)
    requires s < TWO48 && w % TWO64 == Affine(MULT, INC, n, s) % TWO64
    ensures U64(w) % TWO48 == Steps(s, n)
  {
    SameWord(w, Affine(MULT, INC, n, s));
    StepsAreAffine(s, n);
    StepsRange(s, n);
  }

  lemma SameWord(x: int, y: int)
    requires x % TWO64 == y % TWO64
    ensures U64(x) % TWO48 == y % TWO48
  {
    WrapIsInvisible(y);
  }
}
