/** Scanning a rectangle of regions for quad-structure bases (quadbase.c): the regions
    whose moved seed has given low bits form a lattice, and only those are looked at. */
module QuadScan {
  import opened Arith
  import opened Structures
  import opened ModInverse
  import QuadBase

  datatype Region = Region(x: int, z: int)

  /** What is looked for: the low bits of a moved seed, and a test of the seed. */
  datatype Target = Target(s48: nat, low: nat, m: nat, test: nat -> bool)

  /** The seed whose structures at the origin are those of `s48` at region (i, j). The
      negated coordinates are narrowed to `int` by the call. */
  function Moved(s48: nat, i: int, j: int): nat {
    MoveStructure(s48, S32(-i), S32(-j))
  }

  predicate Hit(t: Target, i: int, j: int)
    requires t.m > 0
  {
    Moved(t.s48, i, j) % t.m == t.low % t.m && t.test(Moved(t.s48, i, j))
  }

  /** The hits that the scan comes to: rows are chosen by the low bits of the seed moved by
      the coordinates as they are, before they are narrowed. */
  predicate Listed(t: Target, i: int, j: int)
    requires t.m > 0
  {
    MoveStructure(t.s48, -i, -j) % t.m == t.low % t.m && Hit(t, i, j)
  }

  /** The regions to list, as a function of the region. */
  function HitAt(t: Target): (int, int) -> bool
    requires t.m > 0
  {
    (i, j) => Listed(t, i, j)
  }

  /** The hits of column i among the n rows from z on, in order. */
  function Column(f: (int, int) -> bool, i: int, z: int, n: nat): seq<Region> {
    if n == 0 then [] else
      Column(f, i, z, n - 1) + if f(i, z + n - 1) then [Region(i, z + n - 1)] else []
  }

  /** The hits of n columns from x on: the plain double loop over the rectangle. */
  function Columns(f: (int, int) -> bool, x: int, n: nat, z: int, rows: nat): seq<Region> {
    if n == 0 then [] else Columns(f, x, n - 1, z, rows) + Column(f, x + n - 1, z, rows)
  }

  /** Number of integers from a to b, both included. */
  function Span(a: int, b: int): nat {
    if b < a then 0 else b - a + 1
  }

  function FirstOf<T>(s: seq<T>, n: int): seq<T> {
    if n <= 0 then [] else if |s| <= n then s else s[..n]
  }

  // -------------------------------------------------------------------------- the lattice

  /** m divides 2^48, and inv is an inverse modulo m of the seed step between rows. */
  ghost predicate Lattice(m: nat, inv: nat) {
    m > 0 && TWO48 % m == 0 && (inv * B) % m == 1 % m
  }

  lemma WordMod(a: int, m: nat)
    requires m > 0 && TWO48 % m == 0
    ensures U64(a) % m == a % m && (a % TWO48) % m == a % m
  {
    var k := TWO48 / m;
    assert k * m == TWO48;
    assert k > 0;
    ModOfMod(a, k, m);
    Scale(k, m);
    ModOfMod(a, 0x1_0000 * k, m);
  }

  lemma Scale(k: nat, m: nat)
    requires k * m == TWO48
    ensures (0x1_0000 * k) * m == TWO64
  {
    MulAssoc(0x1_0000, k, m);
  }

  lemma MovedLow(s48: nat, i: int, j: int, m: nat)
    requires m > 0 && TWO48 % m == 0
    ensures MoveStructure(s48, -i, -j) % m == (s48 + i * A + j * B) % m
  {
    var s := s48 - (-i) * A - (-j) * B;
    WordMod(s, m);
    WordMod(U64(s), m);
    assert s == s48 + i * A + j * B;
  }

  /** Remainder of the rows of column i whose moved seed has the low bits. */
  function RowResidue(s48: nat, low: nat, inv: nat, i: int, m: nat): nat
    requires m > 0
  {
    U64(U64(low - U64(s48 + A * i)) * inv) % m
  }

  lemma ResidueValue(s48: nat, low: nat, inv: nat, i: int, m: nat)
    requires m > 0 && TWO48 % m == 0
    ensures RowResidue(s48, low, inv, i, m) == ((low - (s48 + i * A)) * inv) % m
  {
    var sx := s48 + A * i;
    WordMod(U64(low - U64(sx)) * inv, m);
    WordMod(low - U64(sx), m);
    WordMod(sx, m);
    ModAddCong(low, low, U64(sx), sx, m);
    ModMulCong(U64(low - U64(sx)), low - sx, inv, inv, m);
  }

  /** Solving t + j * B == low modulo m for j. */
  lemma SolveRow(t: int, j: int, low: int, inv: nat, m: nat)
    requires m > 0 && (inv * B) % m == 1 % m
    ensures (t + j * B) % m == low % m <==> j % m == ((low - t) * inv) % m
  {
    if (t + j * B) % m == low % m {
      ModAddCong(t + j * B, low, t, t, m);
      ModMulCong(j * B, low - t, inv, inv, m);
      MulAssoc(j, B, inv);
      CancelInverse(j, B, inv, m);
    }
    if j % m == ((low - t) * inv) % m {
      ModMulCong(j, (low - t) * inv, B, B, m);
      MulAssoc(low - t, inv, B);
      CancelInverse(low - t, inv, B, m);
      ModAddCong(j * B, low - t, t, t, m);
    }
  }

  lemma CancelInverse(j: int, b: nat, inv: nat, m: nat)
    requires m > 0 && (inv * b) % m == 1 % m
    ensures (j * (b * inv)) % m == j % m
  {
    assert b * inv == inv * b;
    ModMulCong(j, j, inv * b, 1, m);
  }

  /** Exactly the rows with that remainder have the low bits. */
  lemma LowBitsOnLattice(s48: nat, low: nat, inv: nat, i: int, j: int, m: nat)
    requires Lattice(m, inv)
    ensures MoveStructure(s48, -i, -j) % m == low % m <==> j % m == RowResidue(s48, low, inv, i, m)
  {
    MovedLow(s48, i, j, m);
    ResidueValue(s48, low, inv, i, m);
    SolveRow(s48 + i * A, j, low, inv, m);
  }

  predicate Narrow(i: int) {
    0 - TWO31 < i < TWO31
  }

  lemma NarrowKept(i: int)
    requires Narrow(i)
    ensures S32(-i) == -i
  {
  }

  lemma HitOnLattice(t: Target, inv: nat, i: int, j: int)
    requires Lattice(t.m, inv)
    ensures Listed(t, i, j) <==> j % t.m == RowResidue(t.s48, t.low, inv, i, t.m) && Hit(t, i, j)
  {
    LowBitsOnLattice(t.s48, t.low, inv, i, j, t.m);
  }

  /** Rows strictly between two lattice rows are off the lattice. */
  lemma BetweenMultiples(j: int, k: int, m: nat)
    requires m > 0 && j < k < j + m
    ensures k % m != j % m
  {
    if k % m == j % m {
      var d := CongruentDifference(k, j, m);
      MultipleBounds(d, m);
    }
  }

  // ------------------------------------------------------------------ what narrowing costs

  /** What narrowing adds to a coordinate: a multiple of 2^32. */
  function Shift(i: int): int {
    i + S32(-i)
  }

  /** Narrowing moves the seed by a multiple of m. */
  predicate Harmless(i: int, j: int, m: nat)
    requires m > 0
  {
    (Shift(i) * A + Shift(j) * B) % m == 0
  }

  /** A hit is listed exactly when narrowing its coordinates is harmless. */
  lemma ListedHits(t: Target, i: int, j: int)
    requires t.m > 0 && TWO48 % t.m == 0
    ensures Listed(t, i, j) <==> Hit(t, i, j) && Harmless(i, j, t.m)
  {
    MovedLow(t.s48, i, j, t.m);
    MovedLow(t.s48, i - Shift(i), j - Shift(j), t.m);
    assert Moved(t.s48, i, j) == MoveStructure(t.s48, -(i - Shift(i)), -(j - Shift(j)));
    SameSum(t.s48, A, B, i, j, Shift(i), Shift(j), t.m);
  }

  lemma SameSum(s: int, a: int, b: int, i: int, j: int, di: int, dj: int, m: nat)
    requires m > 0
    ensures (s + i * a + j * b) % m == (s + (i - di) * a + (j - dj) * b) % m <==> (di * a + dj * b) % m == 0
  {
    Distribute(i, -di, a);
    Distribute(j, -dj, b);
    SameMod(s + (i - di) * a + (j - dj) * b, di * a + dj * b, m);
  }

  lemma SameMod(v: int, d: int, m: nat)
    requires m > 0
    ensures (v + d) % m == v % m <==> d % m == 0
  {
    if d % m == 0 { ModAddCong(v, v, d, 0, m); }
    if (v + d) % m == v % m { ModAddCong(v + d, v, v, v, m); }
  }

  /** So every hit is listed where narrowing changes nothing, and everywhere when at most
      32 low bits are given. */
  lemma EveryHitIsListed(t: Target, i: int, j: int)
    requires t.m > 0 && TWO48 % t.m == 0
    requires (Narrow(i) && Narrow(j)) || TWO32 % t.m == 0
    ensures Listed(t, i, j) <==> Hit(t, i, j)
  {
    ListedHits(t, i, j);
    if Narrow(i) && Narrow(j) {
      NarrowKept(i);
      NarrowKept(j);
    } else {
      ShiftLow(i, t.m);
      ShiftLow(j, t.m);
      ModScaleCong(Shift(i), 0, A, t.m);
      ModScaleCong(Shift(j), 0, B, t.m);
      ModAddCong(Shift(i) * A, 0, Shift(j) * B, 0, t.m);
    }
  }

  lemma ShiftLow(i: int, m: nat)
    requires m > 0 && TWO32 % m == 0
    ensures Shift(i) % m == 0
  {
    var k := TWO32 / m;
    assert k * m == TWO32;
    var q := Shift(i) / TWO32;
    assert Shift(i) == q * TWO32;
    MulAssoc(q, k, m);
    ModAddMultiple(0, q * k, m);
  }

  /** With more than 32 low bits a hit is missed: at region (0, -2^31) the moved seed has
      any low bits that are asked for, but the scan takes other rows of that column. */
  lemma MissedHit(s48: nat, m: nat)
    requires m > 0 && TWO48 % m == 0 && m % (2 * TWO32) == 0
    ensures var t := Target(s48, Moved(s48, 0, 0 - TWO31) % m, m, _ => true);
      Hit(t, 0, 0 - TWO31) && !Listed(t, 0, 0 - TWO31)
  {
    var t := Target(s48, Moved(s48, 0, 0 - TWO31) % m, m, _ => true);
    ModOfMod(Moved(s48, 0, 0 - TWO31), 1, m);
    ListedHits(t, 0, 0 - TWO31);
    EdgeIsHarmful(m);
  }

  lemma EdgeIsHarmful(m: nat)
    requires m > 0 && m % (2 * TWO32) == 0
    ensures !Harmless(0, 0 - TWO31, m)
  {
    assert Shift(0) == 0 && Shift(0 - TWO31) == 0 - TWO32;
    var k := m / (2 * TWO32);
    assert m == k * (2 * TWO32);
    ModOfMod(0 - TWO32 * B, k, 2 * TWO32);
  }

  lemma WordDivisor(bits: nat)
    requires bits <= 32
    ensures TWO32 % Pow2(bits) == 0
  {
    Pow2Values();
    Pow2Add(32 - bits, bits);
    ExactQuotient(TWO32, Pow2(bits), Pow2(32 - bits));
  }

  lemma WordMultiple(bits: nat)
    requires bits > 32
    ensures Pow2(bits) % (2 * TWO32) == 0
  {
    Pow2Values();
    Pow2Add(bits - 33, 33);
    assert Pow2(33) == 2 * TWO32;
    ModAddMultiple(0, Pow2(bits - 33), 2 * TWO32);
  }

  ghost predicate ListsAll(m: nat)
    requires m > 0
  {
    forall t: Target, i, j | t.m == m :: Listed(t, i, j) <==> Hit(t, i, j)
  }

  lemma AllListed(m: nat)
    requires m > 0 && TWO48 % m == 0 && TWO32 % m == 0
    ensures ListsAll(m)
  {
    forall t: Target, i, j | t.m == m ensures Listed(t, i, j) <==> Hit(t, i, j) {
      EveryHitIsListed(t, i, j);
    }
  }

  /** The scan comes to every hit of every region exactly for at most 32 low bits. */
  lemma NoHitMissed(bits: nat)
    requires bits <= 48
    ensures ListsAll(Pow2(bits)) <==> bits <= 32
  {
    PowerDivides(bits);
    if bits <= 32 {
      WordDivisor(bits);
      AllListed(Pow2(bits));
    } else {
      WordMultiple(bits);
      MissedHit(0, Pow2(bits));
    }
  }

  // -------------------------------------------------------------------------- the scan

  /** Rows without hits add nothing to a column. */
  lemma {:induction false} ColumnGap(f: (int, int) -> bool, i: int, z: int, n: nat, n': nat)
    requires n <= n'
    requires forall k :: z + n <= k < z + n' ==> !f(i, k)
    ensures Column(f, i, z, n') == Column(f, i, z, n)
    decreases n'
  {
    if n < n' {
      ColumnGap(f, i, z, n, n' - 1);
      assert !f(i, z + n' - 1);
    }
  }

  lemma {:induction false} ColumnGrows(f: (int, int) -> bool, i: int, z: int, n: nat, n': nat)
    requires n <= n'
    ensures Column(f, i, z, n) <= Column(f, i, z, n')
    decreases n'
  {
    if n < n' { ColumnGrows(f, i, z, n, n' - 1); }
  }

  lemma {:induction false} ColumnsGrow(f: (int, int) -> bool, x: int, n: nat, n': nat, z: int, rows: nat)
    requires n <= n'
    ensures Columns(f, x, n, z, rows) <= Columns(f, x, n', z, rows)
    decreases n'
  {
    if n < n' { ColumnsGrow(f, x, n, n' - 1, z, rows); }
  }

  /** A filled prefix is the prefix of every extension. */
  lemma FirstOfPrefix<T>(s: seq<T>, u: seq<T>, n: nat)
    requires s <= u && |s| == n
    ensures FirstOf(u, n) == s
  {
  }

  /** First row of the lattice at or after z. */
  function FirstRow(z: int, r: nat, m: nat): int
    requires m > 0
  {
    var j := (z - z % m) + r;
    if j < z then j + m else j
  }

  lemma FirstRowIsLeast(z: int, r: nat, m: nat)
    requires m > 0 && r < m
    ensures var j := FirstRow(z, r, m); j % m == r && z <= j < z + m
  {
    var q := z / m;
    assert z == m * q + z % m;
    assert z - z % m == q * m;
    ModAddMultiple(r, q, m);
    ModAddMultiple(r, q + 1, m);
    Distribute(q, 1, m);
    DivModUnique(r, m, 0, r);
  }

  lemma NextRow(j: int, m: nat)
    requires m > 0
    ensures (j + m) % m == j % m
  {
    ModAddMultiple(j, 1, m);
  }

  /** The loop over one column: continues the list until it holds n regions. */
  method ScanColumn(t: Target, inv: nat, i: int, z: int, h: int, n: nat, ghost before: seq<Region>, list: seq<Region>)
    returns (out: seq<Region>)
    requires Lattice(t.m, inv) && |list| < n && list == before
    ensures out == FirstOf(before + Column(HitAt(t), i, z, Span(z, z + h)), n)
  {
    out := list;
    var m := t.m;
    var r := RowResidue(t.s48, t.low, inv, i, m);
    var j := FirstRow(z, r, m);
    FirstRowIsLeast(z, r, m);
    SkipRows(t, inv, i, z, z - 1, j, h, r);
    while j <= z + h
      invariant z <= j && j % m == r && |out| < n
      invariant out == before + Column(HitAt(t), i, z, RowsBefore(z, j, h))
      decreases z + h - j
    {
      HitOnLattice(t, inv, i, j);
      if Hit(t, i, j) {
        out := out + [Region(i, j)];
      }
      AfterRow(t, i, z, h, j, n, before, out);
      if |out| >= n { return; }
      NextRow(j, m);
      SkipRows(t, inv, i, z, j, j + m, h, r);
      j := j + m;
    }
  }

  /** The list after row j was looked at, which may fill it. */
  lemma AfterRow(t: Target, i: int, z: int, h: int, j: int, n: nat, before: seq<Region>, out: seq<Region>)
    requires t.m > 0 && z <= j <= z + h && |out| <= n
    requires out == before + Column(HitAt(t), i, z, j - z) + if Listed(t, i, j) then [Region(i, j)] else []
    ensures out == before + Column(HitAt(t), i, z, j - z + 1)
    ensures |out| == n ==> out == FirstOf(before + Column(HitAt(t), i, z, Span(z, z + h)), n)
  {
    assert out == before + Column(HitAt(t), i, z, j - z + 1);
    if |out| == n {
      ColumnGrows(HitAt(t), i, z, j - z + 1, Span(z, z + h));
      FirstOfPrefix(out, before + Column(HitAt(t), i, z, Span(z, z + h)), n);
    }
  }

  /** Rows of the rectangle before row j. */
  function RowsBefore(z: int, j: int, h: int): nat
    requires z <= j
  {
    if j <= z + h then j - z else Span(z, z + h)
  }

  /** From just after row a to the next lattice row there is no hit. */
  lemma SkipRows(t: Target, inv: nat, i: int, z: int, a: int, j: int, h: int, r: nat)
    requires Lattice(t.m, inv)
    requires r == RowResidue(t.s48, t.low, inv, i, t.m) && j % t.m == r
    requires z - 1 <= a < j <= a + t.m && (a <= z + h || a == z - 1)
    requires a >= z ==> a % t.m == r
    ensures Column(HitAt(t), i, z, RowsBefore(z, j, h)) == Column(HitAt(t), i, z, a - z + 1)
  {
    forall k | a < k < j && k <= z + h ensures !Listed(t, i, k) {
      HitOnLattice(t, inv, i, k);
      BetweenMultiples(k, j, t.m);
    }
    ColumnGap(HitAt(t), i, z, a - z + 1, RowsBefore(z, j, h));
  }

  /** `scanForQuadBits`: the first n hits of the rectangle, which spans w + 1 by h + 1
      regions, column by column. */
  method ScanForQuadBits(t: Target, inv: nat, x: int, z: int, w: int, h: int, n: int) returns (out: seq<Region>)
    requires Lattice(t.m, inv)
    ensures out == FirstOf(Columns(HitAt(t), x, Span(x, x + w), z, Span(z, z + h)), n)
  {
    out := [];
    if n < 1 { return; }
    var i := x;
    while i <= x + w
      invariant x <= i && (i <= x + w + 1 || i == x) && |out| < n
      invariant out == Columns(HitAt(t), x, i - x, z, Span(z, z + h))
    {
      out := ScanColumn(t, inv, i, z, h, n, out, out);
      ghost var all := Columns(HitAt(t), x, i - x + 1, z, Span(z, z + h));
      ColumnsGrow(HitAt(t), x, i - x + 1, Span(x, x + w), z, Span(z, z + h));
      if |out| >= n {
        PrefixIsEnough(all, Columns(HitAt(t), x, Span(x, x + w), z, Span(z, z + h)), n);
        return;
      }
      i := i + 1;
    }
  }

  lemma PrefixIsEnough<T>(s: seq<T>, u: seq<T>, n: int)
    requires s <= u && |FirstOf(s, n)| >= n
    ensures FirstOf(u, n) == FirstOf(s, n)
  {
  }

  // ----------------------------------------------------------------- several low bits

  lemma PowerDivides(bits: nat)
    requires bits <= 48
    ensures TWO48 % Pow2(bits) == 0 && Pow2(bits) <= TWO48
  {
    Pow2Values();
    Pow2Add(48 - bits, bits);
    ExactQuotient(TWO48, Pow2(bits), Pow2(48 - bits));
    Pow2Monotone(bits, 48);
  }

  const INVERSE_48: nat := 211541297333629

  lemma InverseModulo(m: nat)
    requires m > 0 && TWO48 % m == 0
    ensures (INVERSE_48 * B) % m == 1 % m
  {
    WordMod(INVERSE_48 * B, m);
  }

  /** The inverse of the row step: constants for 20 and 48 bits, else computed. */
  method RowInverse(bits: nat) returns (inv: nat)
    requires bits <= 48
    ensures Lattice(Pow2(bits), inv)
  {
    PowerDivides(bits);
    if bits == 20 {
      inv := 132477;
      TwentyBits(bits);
    } else if bits == 48 {
      inv := INVERSE_48;
      InverseModulo(Pow2(bits));
    } else {
      inv := MulInv(B, Pow2(bits));
      ComputedInverse(Pow2(bits), inv);
    }
  }

  lemma TwentyBits(bits: nat)
    requires bits == 20
    ensures (132477 * B) % Pow2(bits) == 1 % Pow2(bits)
  {
    Pow2Values();
  }

  lemma ComputedInverse(m: nat, inv: nat)
    requires 0 < m && TWO48 % m == 0 && InverseOutcome(B, m, inv)
    ensures (inv * B) % m == 1 % m
  {
    InverseModulo(m);
    if m > 1 {
      DivModUnique(1, m, 0, 1);
      InverseImpliesCoprime(B, m, INVERSE_48);
    }
  }

  /** A rectangle of w + 1 by h + 1 regions and the list of low bits to scan it for. */
  datatype Job = Job(s48: nat, lowBits: seq<nat>, salt: nat, m: nat, test: nat -> bool, x: int, z: int, w: int, h: int)

  predicate Usable(c: Job) {
    c.m > 0 && 0 in c.lowBits
  }

  function TargetOf(c: Job, k: nat): Target
    requires c.m > 0 && k < |c.lowBits|
  {
    Target(c.s48, U64(c.lowBits[k] - c.salt) % c.m, c.m, c.test)
  }

  /** Number of low bits before the terminating zero. */
  function Given(lowBits: seq<nat>): (n: nat)
    requires 0 in lowBits
    ensures n < |lowBits| && lowBits[n] == 0 && forall k | 0 <= k < n :: lowBits[k] != 0
  {
    if lowBits[0] == 0 then 0 else 1 + Given(lowBits[1..])
  }

  /** The hits of the rectangle for the first n low bits. */
  function AllHits(c: Job, n: nat): seq<Region>
    requires c.m > 0 && n <= |c.lowBits|
  {
    if n == 0 then [] else
      AllHits(c, n - 1) + HitsOf(c, n - 1)
  }

  function HitsOf(c: Job, k: nat): seq<Region>
    requires c.m > 0 && k < |c.lowBits|
  {
    Columns(HitAt(TargetOf(c, k)), c.x, Span(c.x, c.x + c.w), c.z, Span(c.z, c.z + c.h))
  }

  lemma InHitsOf(c: Job, k: nat, p: Region)
    requires c.m > 0 && k < |c.lowBits|
    ensures p in HitsOf(c, k) <==> InRectangle(c, p) && Listed(TargetOf(c, k), p.x, p.z)
  {
    InColumns(HitAt(TargetOf(c, k)), c.x, Span(c.x, c.x + c.w), c.z, Span(c.z, c.z + c.h), p);
  }

  lemma {:induction false} AllHitsGrow(c: Job, n: nat, n': nat)
    requires c.m > 0 && n <= n' <= |c.lowBits|
    ensures AllHits(c, n) <= AllHits(c, n')
    decreases n'
  {
    if n < n' { AllHitsGrow(c, n, n' - 1); }
  }

  /** `scanForQuads`: the first n hits over all low bits before the terminator. */
  method ScanForQuads(c: Job, bits: nat, n: int) returns (out: seq<Region>)
    requires bits <= 48 && c.m == Pow2(bits) && Usable(c)
    ensures out == FirstOf(AllHits(c, Given(c.lowBits)), n)
  {
    out := [];
    var inv := RowInverse(bits);
    var i := 0;
    ghost var last := Given(c.lowBits);
    while c.lowBits[i] != 0
      invariant i <= last && (i == 0 || |out| < n)
      invariant out == FirstOf(AllHits(c, i), n)
      decreases last - i
    {
      var found := ScanHits(c, inv, i, n - |out|);
      AppendFound(c, i, out, found, n);
      out := out + found;
      i := i + 1;
      if |out| >= n {
        EnoughFound(c, i, out, n);
        return;
      }
    }
  }

  lemma EnoughFound(c: Job, i: nat, out: seq<Region>, n: int)
    requires Usable(c) && i <= Given(c.lowBits) && out == FirstOf(AllHits(c, i), n) && |out| >= n
    ensures out == FirstOf(AllHits(c, Given(c.lowBits)), n)
  {
    AllHitsGrow(c, i, Given(c.lowBits));
    PrefixIsEnough(AllHits(c, i), AllHits(c, Given(c.lowBits)), n);
  }

  method ScanHits(c: Job, inv: nat, i: nat, n: int) returns (found: seq<Region>)
    requires c.m > 0 && Lattice(c.m, inv) && i < |c.lowBits|
    ensures found == FirstOf(HitsOf(c, i), n)
  {
    found := ScanForQuadBits(TargetOf(c, i), inv, c.x, c.z, c.w, c.h, n);
  }

  lemma AppendFound(c: Job, i: nat, out: seq<Region>, found: seq<Region>, n: int)
    requires c.m > 0 && i < |c.lowBits| && (i == 0 || |out| < n)
    requires out == FirstOf(AllHits(c, i), n)
    requires found == FirstOf(HitsOf(c, i), n - |out|)
    ensures out + found == FirstOf(AllHits(c, i + 1), n)
  {
  }

  // ------------------------------------------------------------------- what was found

  lemma {:induction false} InColumn(f: (int, int) -> bool, i: int, z: int, n: nat, p: Region)
    ensures p in Column(f, i, z, n) <==> p.x == i && z <= p.z < z + n && f(i, p.z)
  {
    if n > 0 { InColumn(f, i, z, n - 1, p); }
  }

  ghost predicate Found(f: (int, int) -> bool, z: int, rows: nat, p: Region) {
    z <= p.z < z + rows && f(p.x, p.z)
  }

  function Concat(g: int -> seq<Region>, x: int, n: nat): seq<Region> {
    if n == 0 then [] else Concat(g, x, n - 1) + g(x + n - 1)
  }

  lemma {:induction false} InConcat(g: int -> seq<Region>, x: int, n: nat, p: Region)
    ensures p in Concat(g, x, n) <==> exists i :: x <= i < x + n && p in g(i)
  {
    if n > 0 { InConcat(g, x, n - 1, p); }
  }

  function ColumnAt(f: (int, int) -> bool, z: int, rows: nat): int -> seq<Region> {
    i => Column(f, i, z, rows)
  }

  lemma {:induction false} ColumnsConcat(f: (int, int) -> bool, x: int, n: nat, z: int, rows: nat)
    ensures Columns(f, x, n, z, rows) == Concat(ColumnAt(f, z, rows), x, n)
  {
    if n > 0 { ColumnsConcat(f, x, n - 1, z, rows); }
  }

  lemma InColumns(f: (int, int) -> bool, x: int, n: nat, z: int, rows: nat, p: Region)
    ensures p in Columns(f, x, n, z, rows) <==> x <= p.x < x + n && Found(f, z, rows, p)
  {
    var g := ColumnAt(f, z, rows);
    forall i ensures p in g(i) <==> p.x == i && Found(f, z, rows, p) {
      OfColumn(f, i, z, rows, p);
    }
    InConcat(g, x, n, p);
    ColumnsConcat(f, x, n, z, rows);
  }

  lemma OfColumn(f: (int, int) -> bool, i: int, z: int, rows: nat, p: Region)
    ensures p in Column(f, i, z, rows) <==> p.x == i && Found(f, z, rows, p)
  {
    InColumn(f, i, z, rows, p);
  }

  predicate InRectangle(c: Job, p: Region) {
    c.x <= p.x <= c.x + c.w && c.z <= p.z <= c.z + c.h
  }

  /** The list holds exactly the hits of the rectangle. */
  lemma {:induction false} ExactlyTheHits(c: Job, n: nat, p: Region)
    requires c.m > 0 && n <= |c.lowBits|
    ensures p in AllHits(c, n) <==> InRectangle(c, p) && exists k | 0 <= k < n :: Listed(TargetOf(c, k), p.x, p.z)
  {
    if n > 0 {
      ExactlyTheHits(c, n - 1, p);
      InHitsOf(c, n - 1, p);
    }
  }

  ghost predicate NoRepeats(s: seq<Region>) {
    forall a, b :: 0 <= a < b < |s| ==> s[a] != s[b]
  }

  ghost predicate Apart(s: seq<Region>, u: seq<Region>) {
    forall p | p in s :: p !in u
  }

  lemma NoRepeatsSum(s: seq<Region>, u: seq<Region>)
    requires NoRepeats(s) && NoRepeats(u) && Apart(s, u)
    ensures NoRepeats(s + u)
  {
    forall a, b | 0 <= a < b < |s + u| ensures (s + u)[a] != (s + u)[b] {
      if a < |s| <= b {
        assert s[a] in s && u[b - |s|] in u;
      }
    }
  }

  lemma {:induction false} ColumnNoRepeats(f: (int, int) -> bool, i: int, z: int, n: nat)
    ensures NoRepeats(Column(f, i, z, n))
  {
    if n > 0 {
      ColumnNoRepeats(f, i, z, n - 1);
      InColumn(f, i, z, n - 1, Region(i, z + n - 1));
      NoRepeatsSum(Column(f, i, z, n - 1), if f(i, z + n - 1) then [Region(i, z + n - 1)] else []);
    }
  }

  lemma {:induction false} ColumnsNoRepeats(f: (int, int) -> bool, x: int, n: nat, z: int, rows: nat)
    ensures NoRepeats(Columns(f, x, n, z, rows))
  {
    if n > 0 {
      ColumnsNoRepeats(f, x, n - 1, z, rows);
      ColumnNoRepeats(f, x + n - 1, z, rows);
      ColumnsApart(f, x, n, z, rows);
      NoRepeatsSum(Columns(f, x, n - 1, z, rows), Column(f, x + n - 1, z, rows));
    }
  }

  lemma ColumnsApart(f: (int, int) -> bool, x: int, n: nat, z: int, rows: nat)
    requires n > 0
    ensures Apart(Columns(f, x, n - 1, z, rows), Column(f, x + n - 1, z, rows))
  {
    var before, last := Columns(f, x, n - 1, z, rows), Column(f, x + n - 1, z, rows);
    forall p | p in before ensures p !in last {
      LeftOf(f, x, n - 1, z, rows, p);
      OfColumn(f, x + n - 1, z, rows, p);
    }
  }

  lemma LeftOf(f: (int, int) -> bool, x: int, n: nat, z: int, rows: nat, p: Region)
    requires p in Columns(f, x, n, z, rows)
    ensures p.x < x + n
  {
    InColumns(f, x, n, z, rows, p);
  }

  /** The low bits less the salt are pairwise different modulo m. */
  ghost predicate DistinctTargets(c: Job, n: nat)
    requires c.m > 0 && n <= |c.lowBits|
  {
    forall a, b :: 0 <= a < b < n ==> TargetOf(c, a).low != TargetOf(c, b).low
  }

  /** For different low bits every region is listed once. */
  lemma {:induction false} ListedOnce(c: Job, n: nat)
    requires c.m > 0 && n <= |c.lowBits| && DistinctTargets(c, n)
    ensures NoRepeats(AllHits(c, n))
  {
    if n > 0 {
      ListedOnce(c, n - 1);
      ColumnsNoRepeats(HitAt(TargetOf(c, n - 1)), c.x, Span(c.x, c.x + c.w), c.z, Span(c.z, c.z + c.h));
      HitsApart(c, n);
      NoRepeatsSum(AllHits(c, n - 1), HitsOf(c, n - 1));
    }
  }

  lemma HitsApart(c: Job, n: nat)
    requires c.m > 0 && 0 < n <= |c.lowBits| && DistinctTargets(c, n)
    ensures Apart(AllHits(c, n - 1), HitsOf(c, n - 1))
  {
    var before, last := AllHits(c, n - 1), HitsOf(c, n - 1);
    forall p | p in before ensures p !in last {
      ExactlyTheHits(c, n - 1, p);
      var k :| 0 <= k < n - 1 && Listed(TargetOf(c, k), p.x, p.z);
      ListedByOne(c, n, k, p);
      InHitsOf(c, n - 1, p);
    }
  }

  lemma ListedByOne(c: Job, n: nat, k: nat, p: Region)
    requires c.m > 0 && k < n - 1 < |c.lowBits| && DistinctTargets(c, n)
    requires Listed(TargetOf(c, k), p.x, p.z)
    ensures !Listed(TargetOf(c, n - 1), p.x, p.z)
  {
    LowIsReduced(c, k);
    LowIsReduced(c, n - 1);
  }

  lemma LowIsReduced(c: Job, k: nat)
    requires c.m > 0 && k < |c.lowBits|
    ensures TargetOf(c, k).low % c.m == TargetOf(c, k).low
  {
    ModTwice(U64(c.lowBits[k] - c.salt), c.m);
  }

  lemma ModTwice(a: int, m: nat)
    requires m > 0
    ensures (a % m) % m == a % m
  {
    DivModUnique(a % m, m, 0, a % m);
  }

  // ------------------------------------------------------------- what a hit stands for

  /** The four chunks that the seed itself generates in the regions from (i, j) on. */
  function QuadAt(salt: int, s48: nat, i: int, j: int): QuadBase.Quad {
    var cfg := QuadBase.QuadConfig(salt);
    QuadBase.Quad(ChunkInRegion(cfg, s48, i, j), ChunkInRegion(cfg, s48, i + 1, j + 1),
                  ChunkInRegion(cfg, s48, i + 1, j), ChunkInRegion(cfg, s48, i, j + 1))
  }

  lemma MovedQuad(salt: int, s48: nat, i: int, j: int)
    requires Narrow(i) && Narrow(j)
    ensures QuadBase.QuadOf(salt, Moved(s48, i, j)) == QuadAt(salt, s48, i, j)
  {
    var cfg := QuadBase.QuadConfig(salt);
    MovedChunk(cfg, s48, i, j, 0, 0);
    MovedChunk(cfg, s48, i, j, 1, 1);
    MovedChunk(cfg, s48, i, j, 1, 0);
    MovedChunk(cfg, s48, i, j, 0, 1);
  }

  lemma MovedChunk(cfg: Config, s48: nat, i: int, j: int, a: int, b: int)
    requires Narrow(i) && Narrow(j)
    ensures ChunkInRegion(cfg, Moved(s48, i, j), a, b) == ChunkInRegion(cfg, s48, i + a, j + b)
  {
    NarrowKept(i);
    NarrowKept(j);
    MoveTranslates(cfg, s48, -i, -j, a, b);
  }

  /** The test that is applied to moved seeds accepts exactly the bases of quad huts. */
  ghost predicate TestsHuts(test: nat -> bool, hutSalt: int) {
    forall s: nat :: test(s) <==> QuadBase.HasCentre(QuadBase.QuadCorners(QuadBase.QuadOf(hutSalt, s), 8, 10), 8)
  }

  /** A scan with the witch hut test lists the regions of the rectangle where the
      seed's own four huts have a centre and the moved seed has one of the low bits. */
  lemma ScanFindsHuts(c: Job, hutSalt: int, p: Region)
    requires Usable(c) && TWO48 % c.m == 0 && TestsHuts(c.test, hutSalt)
    requires InRectangle(c, p) ==> Narrow(p.x) && Narrow(p.z)
    ensures p in AllHits(c, Given(c.lowBits)) <==>
      && InRectangle(c, p)
      && QuadBase.HasCentre(QuadBase.QuadCorners(QuadAt(hutSalt, c.s48, p.x, p.z), 8, 10), 8)
      && exists k | 0 <= k < Given(c.lowBits) :: Moved(c.s48, p.x, p.z) % c.m == TargetOf(c, k).low % c.m
  {
    ExactlyTheHits(c, Given(c.lowBits), p);
    if InRectangle(c, p) {
      MovedQuad(hutSalt, c.s48, p.x, p.z);
      forall k | 0 <= k < Given(c.lowBits)
        ensures Listed(TargetOf(c, k), p.x, p.z) <==> Hit(TargetOf(c, k), p.x, p.z)
      {
        EveryHitIsListed(TargetOf(c, k), p.x, p.z);
      }
    }
  }
}
