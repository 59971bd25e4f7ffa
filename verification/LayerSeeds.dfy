/** The random numbers of the layered generator (rng.h), on 64-bit words. */
module LayerSeeds {
  import opened Arith

  /** `mcStepSeed`. */
  function StepSeed(s: nat, salt: int): (r: nat)
    ensures r < TWO64
  {
    U64(s * (s * 6364136223846793005 + 1442695040888963407) + salt)
  }

  /** `getChunkSeed`. */
  function ChunkSeed(ss: nat, x: int, z: int): (r: nat)
    ensures r < TWO64
  {
    StepSeed(StepSeed(StepSeed(U64(ss + x), z), x), z)
  }

  /** `mcFirstInt`: the signed shift, C's remainder, and its correction. */
  function FirstInt(s: nat, m: int): (r: int)
    requires m > 0
    ensures 0 <= r < m
  {
    var ret := TruncMod(S64(s) / 0x100_0000, m);
    if ret < 0 then ret + m else ret
  }

  /** `mcFirstIsZero`. */
  function FirstIsZero(s: nat, m: int): bool
    requires m > 0
  {
    TruncMod(S64(s) / 0x100_0000, m) == 0
  }

  lemma TruncModCorrected(a: int, m: int)
    requires m > 0
    ensures (if TruncMod(a, m) < 0 then TruncMod(a, m) + m else TruncMod(a, m)) == a % m
  {
    if a < 0 {
      var q, r := (0 - a) / m, (0 - a) % m;
      assert 0 - a == m * q + r;
      assert a == (0 - q) * m - r;
      Distribute(0 - q, 1, m);
      if r == 0 {
        DivModUnique(a, m, 0 - q, 0);
      } else {
        DivModUnique(a, m, 0 - q - 1, m - r);
      }
    }
  }

  /** The first draw is the floor remainder of the signed high 40 bits, and the zero
      test is the test that this draw is 0. */
  lemma FirstIntIsFloorMod(s: nat, m: int)
    requires m > 0
    ensures FirstInt(s, m) == (S64(s) / 0x100_0000) % m
    ensures FirstIsZero(s, m) <==> FirstInt(s, m) == 0
  {
    TruncModCorrected(S64(s) / 0x100_0000, m);
  }

  /** C's quotient and remainder for any non-zero divisor. */
  function Quotient(a: int, b: int): int
    requires b != 0
  {
    if b > 0 then TruncDiv(a, b) else 0 - TruncDiv(a, 0 - b)
  }

  function Remainder(a: int, b: int): int
    requires b != 0
  {
    if b > 0 then TruncMod(a, b) else TruncMod(a, 0 - b)
  }

  /** `floordiv`; the sign of a ^ b tells whether the signs differ. */
  function FloorDiv(a: int, b: int): int
    requires b != 0
  {
    Quotient(a, b) - if (a < 0) != (b < 0) && Remainder(a, b) != 0 then 1 else 0
  }

  lemma TruncParts(a: int, m: int)
    requires m > 0
    ensures a == TruncDiv(a, m) * m + TruncMod(a, m)
    ensures a < 0 ==> TruncMod(a, m) <= 0
  {
    if a < 0 {
      assert 0 - a == m * ((0 - a) / m) + (0 - a) % m;
      Distribute(0, (0 - a) / m, m);
    }
  }

  /** What is left has the sign of the divisor and is smaller: the quotient is rounded
      to minus infinity. */
  lemma FloorDivFloors(a: int, b: int)
    requires b != 0
    ensures var r := a - FloorDiv(a, b) * b;
      if b > 0 then 0 <= r < b else b < r <= 0
  {
    var m := if b > 0 then b else 0 - b;
    var q := TruncDiv(a, m);
    TruncParts(a, m);
    Distribute(q, 1, m);
    Distribute(0 - q, 1, b);
    Negate(q, b);
  }

  lemma Negate(q: int, b: int)
    ensures (0 - q) * b == q * (0 - b)
  {
  }
}
