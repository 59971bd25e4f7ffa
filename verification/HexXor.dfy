/** Exclusive or of numbers written with hexadecimal digits, done by hand. */
module HexXor {
  import opened Arith

  /** A hexadecimal digit by its bits. */
  datatype Hex = Hex(b3: bool, b2: bool, b1: bool, b0: bool)

  const H0: Hex := Hex(false, false, false, false)
  const H1: Hex := Hex(false, false, false, true)
  const H2: Hex := Hex(false, false, true, false)
  const H3: Hex := Hex(false, false, true, true)
  const H4: Hex := Hex(false, true, false, false)
  const H5: Hex := Hex(false, true, false, true)
  const H6: Hex := Hex(false, true, true, false)
  const H7: Hex := Hex(false, true, true, true)
  const H8: Hex := Hex(true, false, false, false)
  const H9: Hex := Hex(true, false, false, true)
  const HA: Hex := Hex(true, false, true, false)
  const HB: Hex := Hex(true, false, true, true)
  const HC: Hex := Hex(true, true, false, false)
  const HD: Hex := Hex(true, true, false, true)
  const HE: Hex := Hex(true, true, true, false)
  const HF: Hex := Hex(true, true, true, true)

  function Bit(b: bool): nat {
    if b then 1 else 0
  }

  function DigitValue(h: Hex): nat {
    Bit(h.b0) + 2 * Bit(h.b1) + 4 * Bit(h.b2) + 8 * Bit(h.b3)
  }

  function XorHex(a: Hex, b: Hex): Hex {
    Hex(a.b3 != b.b3, a.b2 != b.b2, a.b1 != b.b1, a.b0 != b.b0)
  }

  function XorDigit(a: Hex, b: Hex): nat {
    DigitValue(XorHex(a, b))
  }

  /** An exclusive or by hand, digit by digit: each row adds the digits a and b below the
      numbers of the rows after it, and p, q and x are the numbers so far. */
  datatype Sum = Rest(p: nat) | Row(a: Hex, b: Hex, p: nat, q: nat, x: nat, rest: Sum)

  function Q(s: Sum): nat { if s.Rest? then 0 else s.q }
  function X(s: Sum): nat { if s.Rest? then s.p else s.x }

  predicate Adds(s: Sum) {
    s.Row? ==>
      && s.p == DigitValue(s.a) + 16 * s.rest.p && s.q == DigitValue(s.b) + 16 * Q(s.rest)
      && s.x == XorDigit(s.a, s.b) + 16 * X(s.rest) && Adds(s.rest)
  }

  lemma {:induction false} XorNothing(p: nat)
    ensures Xor(p, 0) == p
    decreases p
  {
    if p > 0 { XorNothing(p / 2); }
  }

  /** A number with one more bit below. */
  function Low(c: bool, p: nat): nat {
    Bit(c) + 2 * p
  }

  lemma XorBit(c: bool, p: nat, d: bool, q: nat)
    ensures Xor(Low(c, p), Low(d, q)) == Low(c != d, Xor(p, q))
  {
    assert Low(c, p) / 2 == p && Low(d, q) / 2 == q;
  }

  lemma {:induction false} LongXor(s: Sum)
    requires Adds(s)
    ensures Xor(s.p, Q(s)) == X(s)
  {
    match s
    case Rest(p) => XorNothing(p);
    case Row(a, b, _, _, _, rest) =>
      LongXor(rest);
      XorRow(a, rest.p, b, Q(rest));
  }

  lemma DigitBits(h: Hex, p: nat)
    ensures DigitValue(h) + 16 * p == Low(h.b0, Low(h.b1, Low(h.b2, Low(h.b3, p))))
  {
  }

  lemma XorRow(a: Hex, p: nat, b: Hex, q: nat)
    ensures Xor(DigitValue(a) + 16 * p, DigitValue(b) + 16 * q) == XorDigit(a, b) + 16 * Xor(p, q)
  {
    DigitBits(a, p);
    DigitBits(b, q);
    DigitBits(XorHex(a, b), Xor(p, q));
    XorTwoBits(a.b3, a.b2, p, b.b3, b.b2, q);
    XorTwoBits(a.b1, a.b0, Low(a.b2, Low(a.b3, p)), b.b1, b.b0, Low(b.b2, Low(b.b3, q)));
  }

  lemma XorTwoBits(c1: bool, c0: bool, p: nat, d1: bool, d0: bool, q: nat)
    ensures Xor(Low(c0, Low(c1, p)), Low(d0, Low(d1, q))) == Low(c0 != d0, Low(c1 != d1, Xor(p, q)))
  {
    XorBit(c1, p, d1, q);
    XorBit(c0, Low(c1, p), d0, Low(d1, q));
  }

  /** One more row: the digits below the numbers so far. */
  lemma AddRow(rest: Sum, a: Hex, b: Hex, p: nat, q: nat, x: nat) returns (s: Sum)
    requires Adds(rest) && p == DigitValue(a) + 16 * rest.p && q == DigitValue(b) + 16 * Q(rest)
    requires x == XorDigit(a, b) + 16 * X(rest)
    ensures Adds(s) && s.p == p && Q(s) == q && X(s) == x
  {
    s := Row(a, b, p, q, x, rest);
  }
}
