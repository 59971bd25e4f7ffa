/** The bounded draws of the generator used from Minecraft 1.18 on (rng.h). */
module Xoroshiro {
  import opened Arith
  import opened BoundedDraws

  /** A word whose 32 low bits are zero is accepted only when n divides 2^32; a
      source stuck at zero therefore never satisfies the redraw loop for other n. */
  lemma ZeroDraw(n: nat)
    requires 0 < n < TWO32
    ensures Accepted32(n, 0) <==> TWO32 % n == 0
  {
    ModAddMultiple(TWO32, -1, n);
  }

  /** A source of 64-bit words read one after the other. The bounded draws use
      nothing else about the generator. */
  class WordSource {
    const words: nat -> nat
    var pos: nat

    constructor (words: nat -> nat)
      ensures this.words == words && pos == 0
    {
      this.words := words;
      pos := 0;
    }

    /** The 32 low bits, and the 31 high bits, of the i-th word. */
    function Low32(i: nat): (r: nat)
      ensures r < TWO32
    {
      U64(words(i)) % TWO32
    }

    function High31(i: nat): (r: nat)
      ensures r < TWO31
    {
      U64(words(i)) / 0x2_0000_0000
    }

    method NextLong() returns (n: nat)
      modifies this
      ensures pos == old(pos) + 1 && n == U64(words(old(pos)))
    {
      n := U64(words(pos));
      pos := pos + 1;
    }

    /** Index of the first word from `i` on whose 32-bit (31-bit) draw is accepted;
        `bound` is the index of some accepted one. */
    ghost function First32(n: nat, i: nat, bound: nat): (k: nat)
      requires 0 < n < TWO32 && i <= bound
      ensures i <= k <= bound
      decreases bound - i
    {
      if i == bound || Accepted32(n, Low32(i)) then i else First32(n, i + 1, bound)
    }

    ghost function First31(n: nat, i: nat, bound: nat): (k: nat)
      requires 0 < n && i <= bound
      ensures i <= k <= bound
      decreases bound - i
    {
      if i == bound || Accepted31(n, High31(i)) then i else First31(n, i + 1, bound)
    }

    lemma {:induction false} First32Spec(n: nat, i: nat, bound: nat)
      requires 0 < n < TWO32 && i <= bound && Accepted32(n, Low32(bound))
      ensures Accepted32(n, Low32(First32(n, i, bound)))
      ensures forall j: nat :: i <= j < First32(n, i, bound) ==> !Accepted32(n, Low32(j))
      decreases bound - i
    {
      if i < bound && !Accepted32(n, Low32(i)) { First32Spec(n, i + 1, bound); }
    }

    lemma {:induction false} First31Spec(n: nat, i: nat, bound: nat)
      requires 0 < n && i <= bound && Accepted31(n, High31(bound))
      ensures Accepted31(n, High31(First31(n, i, bound)))
      ensures forall j: nat :: i <= j < First31(n, i, bound) ==> !Accepted31(n, High31(j))
      decreases bound - i
    {
      if i < bound && !Accepted31(n, High31(i)) { First31Spec(n, i + 1, bound); }
    }

    /** `xNextInt(n)`: the high word of x * n for the first accepted draw. Some
        later draw must be acceptable, or the loop of the original never ends. */
    method NextInt(n: nat, ghost bound: nat) returns (v: nat)
      requires 0 < n < TWO32 && pos <= bound
      requires Accepted32(n, Low32(bound))
      modifies this
      ensures pos == First32(n, old(pos), bound) + 1
      ensures v == Value32(n, Low32(First32(n, old(pos), bound))) < n
    {
      ghost var i: nat := pos;
      var r: nat, low: nat := Draw32(n);
      if low < n {
        while low < (TWO32 - n) % n
          invariant i <= bound && pos == i + 1 && Tested32(n, i, r, low)
          invariant First32(n, old(pos), bound) == First32(n, i, bound)
          decreases bound - i
        {
          i := pos;
          r, low := Draw32(n);
        }
      }
      v := r / TWO32;
    }

    /** What the product r and its low word say about the i-th word. */
    ghost predicate Tested32(n: nat, i: nat, r: nat, low: nat)
      requires 0 < n < TWO32
    {
      && (Accepted32(n, Low32(i)) <==> low >= (TWO32 - n) % n)
      && (low >= n ==> low >= (TWO32 - n) % n)
      && r / TWO32 == Value32(n, Low32(i)) < n
    }

    method Draw32(n: nat) returns (r: nat, low: nat)
      requires 0 < n < TWO32
      modifies this
      ensures pos == old(pos) + 1 && Tested32(n, old(pos), r, low)
    {
      var x := NextLong();
      r := (x % TWO32) * n;
      low := r % TWO32;
      LowWordTest(n, Low32(pos - 1), r, low);
      HighWordRange(n, Low32(pos - 1));
    }

    /** `xNextIntJ(n)`: Java's rejection rule on the 31 high bits. */
    method NextIntJ(n: nat, ghost bound: nat) returns (v: nat)
      requires 0 < n < TWO32 && pos <= bound
      requires Accepted31(n, High31(bound))
      modifies this
      ensures pos == First31(n, old(pos), bound) + 1
      ensures v == Value31(n, High31(First31(n, old(pos), bound))) < n
    {
      var m := n - 1;
      ghost var i: nat := pos;
      var bits: nat := Draw31();
      if And(m, n) == 0 {
        v := U64(n * bits) / TWO31;
        ScaledWordRange(n, bits);
      } else {
        v := bits % n;
        while S32(bits - v + m) < 0
          invariant i <= bound && pos == i + 1 && bits == High31(i) && v == bits % n
          invariant First31(n, old(pos), bound) == First31(n, i, bound)
          decreases bound - i
        {
          i := pos;
          bits := Draw31();
          v := bits % n;
        }
      }
    }

    method Draw31() returns (bits: nat)
      modifies this
      ensures pos == old(pos) + 1 && bits == High31(old(pos))
    {
      var x := NextLong();
      bits := x / 0x2_0000_0000;
    }
  }

  /** The test `(uint32_t) r < n` only avoids a division: the threshold is below n. */
  lemma LowWordTest(n: nat, x: nat, r: nat, low: nat)
    requires 0 < n < TWO32 && r == x * n && low == r % TWO32
    ensures Accepted32(n, x) <==> low >= (TWO32 - n) % n
    ensures low >= n ==> Accepted32(n, x)
  {
  }

  lemma HighWordRange(n: nat, x: nat)
    requires 0 < n && x < TWO32
    ensures x * n / TWO32 < n
  {
    QuotientBound(n, TWO32, x * n);
    MultipleBounds(TWO32 - x, n);
  }

  lemma ScaledWordRange(n: nat, bits: nat)
    requires 0 < n < TWO32 && bits < TWO31
    ensures U64(n * bits) == n * bits && n * bits / TWO31 < n
  {
    MulMonotone(n, TWO32, bits, TWO31);
    QuotientBound(n, TWO31, n * bits);
    MultipleBounds(TWO31 - bits, n);
  }
}
