/** Quad-structure bases (quadbase.h): the optimised test for regions of 32 chunks, a
    range of 24 and a radius of 128, against a search for a centre in the whole plane. */
module QuadBase {
  import opened Arith
  import opened JavaRandom
  import opened Structures

  // -------------------------------------------------------------- the draw by multiplication

  /** `JAVA_NEXT_INT24`: division by 24 as a multiplication and a shift by 36. */
  function NextInt24(s: nat): (r: (nat, int)) {
    var a := U64(U64(MULT * s) + 11) % TWO48;
    var top := a / 0x2_0000;
    var c := U64(0xaaaa_aaab * top) / 0x10_0000_0000;
    (a, top - (c * 8) * 3)
  }

  /** It is the next state and the 31-bit draw modulo 24. */
  lemma NextInt24Correct(s: nat)
    ensures NextInt24(s) == (Step(s), Bits31(Step(s)) % 24)
  {
    WrapIsInvisible(U64(MULT * s) + 11);
    WrapIsInvisible(MULT * s);
    ModAddCong(U64(MULT * s), MULT * s, 11, 11, TWO48);
    assert MULT * s == s * MULT;
    MagicDivision(Bits31(Step(s)));
  }

  lemma MagicDivision(top: nat)
    requires top < TWO31
    ensures U64(0xaaaa_aaab * top) / 0x10_0000_0000 == top / 24
  {
    var q, r := top / 24, top % 24;
    // 24 * 0xaaaaaaab == 2^36 + 8
    assert 0xaaaa_aaab * top == q * 0x10_0000_0000 + (8 * q + 0xaaaa_aaab * r);
    DivModUnique(0xaaaa_aaab * top, 0x10_0000_0000, q, 8 * q + 0xaaaa_aaab * r);
  }

  // --------------------------------------------------------------------------- geometry

  datatype Point = Point(x: int, z: int)

  function DistSq(x: int, z: int, p: Point): nat {
    Square(x - p.x) + Square(z - p.z)
  }

  function Max(a: nat, b: nat): nat { if a > b then a else b }

  /** The outer corners of the structures in regions (0,0), (1,1), (1,0) and (0,1). */
  datatype Corners = Corners(p0: Point, p1: Point, p2: Point, p3: Point)

  /** Squared distance from a block to the farthest of the four corners. */
  function Farthest(c: Corners, x: int, z: int): nat {
    Max(Max(DistSq(x, z, c.p0), DistSq(x, z, c.p1)), Max(DistSq(x, z, c.p2), DistSq(x, z, c.p3)))
  }

  /** Some block centre sees all four corners within the radius 128 in three dimensions:
      the vertical half height adds ay^2 / 4. */
  ghost predicate HasCentre(c: Corners, ay: nat) {
    exists x, z :: InReach(c, ay, x, z)
  }

  predicate InReach(c: Corners, ay: nat, x: int, z: int) {
    4 * Farthest(c, x, z) + ay * ay < 4 * 0x4000
  }

  /** Corners of structures of size (ax, az) at chunks k0 .. k3 of the four regions. */
  function CornersOf(k0: Chunk, k1: Chunk, k2: Chunk, k3: Chunk, ax: nat, az: nat, reg: int): Corners {
    Corners(Point(k0.x * 16, k0.z * 16),
            Point((reg + k1.x) * 16 + ax, (reg + k1.z) * 16 + az),
            Point((reg + k2.x) * 16 + ax, k2.z * 16),
            Point(k3.x * 16, (reg + k3.z) * 16 + az))
  }

  datatype Window = Window(x0: int, z0: int, x1: int, z1: int)

  function MaxInt(a: int, b: int): int { if a > b then a else b }
  function MinInt(a: int, b: int): int { if a < b then a else b }

  /** The inner rectangle that `getEnclosingRadius` searches. */
  function SearchWindow(c: Corners, gap: int): Window {
    Window(MaxInt(c.p1.x, c.p2.x) - gap, MaxInt(c.p1.z, c.p3.z) - gap,
           MinInt(c.p0.x, c.p3.x) + gap, MinInt(c.p0.z, c.p2.z) + gap)
  }

  /** A centre within the radius lies in the window. */
  lemma CentreInWindow(c: Corners, ay: nat, x: int, z: int)
    requires InReach(c, ay, x, z)
    ensures var w := SearchWindow(c, 128); w.x0 <= x <= w.x1 && w.z0 <= z <= w.z1
  {
    NearBelow(x, z, c.p0);
    NearBelow(x, z, c.p1);
    NearBelow(x, z, c.p2);
    NearBelow(x, z, c.p3);
  }

  lemma NearBelow(x: int, z: int, p: Point)
    ensures DistSq(x, z, p) < 0x4000 ==> -128 < x - p.x < 128 && -128 < z - p.z < 128
  {
    SquareBelow(x - p.x, 128);
    SquareBelow(z - p.z, 128);
  }

  lemma SquareBelow(a: int, b: nat)
    ensures Square(a) < Square(b) ==> 0 - b < a < b
  {
    if a >= b { MulMonotone(b, a, b, a); }
    if a <= 0 - b { MulMonotone(b, -a, b, -a); }
  }

  const NO_CENTRE: nat := 0x7fff_ffff

  /** sq is at most every value in the rows before z and in row z before x, and is one of
      them unless it is still the start value. */
  ghost predicate LeastBefore(c: Corners, w: Window, z: int, x: int, sq: nat) {
    && sq <= NO_CENTRE
    && (forall a, b :: w.x0 <= a <= w.x1 && w.z0 <= b <= w.z1 && (b < z || (b == z && a < x)) ==>
        sq <= Farthest(c, a, b))
    && (sq < NO_CENTRE ==> exists a, b :: w.x0 <= a <= w.x1 && w.z0 <= b <= w.z1 && Farthest(c, a, b) == sq)
  }

  /** The two loops of `getEnclosingRadius`: the least farthest-corner distance squared. */
  method EnclosingSquare(c: Corners, gap: int) returns (sq: nat)
    ensures LeastBefore(c, SearchWindow(c, gap), SearchWindow(c, gap).z1 + 1, SearchWindow(c, gap).x0, sq)
  {
    var w := SearchWindow(c, gap);
    sq := NO_CENTRE;
    var z := w.z0;
    while z <= w.z1
      invariant w.z0 <= z && (z <= w.z1 + 1 || z == w.z0)
      invariant LeastBefore(c, w, z, w.x0, sq)
      decreases w.z1 + 1 - z
    {
      var x := w.x0;
      while x <= w.x1
        invariant w.x0 <= x && LeastBefore(c, w, z, x, sq)
        decreases w.x1 + 1 - x
      {
        var s := Farthest(c, x, z);
        if s < sq { sq := s; }
        x := x + 1;
      }
      z := z + 1;
    }
  }

  lemma RadiusDecides(c: Corners, ay: nat, sq: nat)
    requires LeastBefore(c, SearchWindow(c, 128), SearchWindow(c, 128).z1 + 1, SearchWindow(c, 128).x0, sq)
    ensures 4 * sq + ay * ay < 4 * 0x4000 <==> HasCentre(c, ay)
  {
    if HasCentre(c, ay) {
      var x, z :| InReach(c, ay, x, z);
      CentreInWindow(c, ay, x, z);
      assert sq <= Farthest(c, x, z);
    }
    if 4 * sq + ay * ay < 4 * 0x4000 {
      assert ay * ay >= 0;
      var w := SearchWindow(c, 128);
      var a, b :| w.x0 <= a <= w.x1 && w.z0 <= b <= w.z1 && Farthest(c, a, b) == sq;
      assert InReach(c, ay, a, b);
    }
  }

  // ------------------------------------------------------------------- the test itself

  datatype Quality = NoBase | Base(fourSquares: nat)

  function QuadConfig(salt: int): Config {
    Config(salt, 32, 24)
  }

  lemma DrawIn24(bits: nat)
    ensures DrawIn(24, bits) == bits % 24
  {
    assert And(23, 24) == 16 by {
      assert And(2, 3) == 2 && And(5, 6) == 4 && And(11, 12) == 8;
    }
  }

  /** The two draws of a region by the macro are the chunk of that region. */
  lemma MacroDraws(s: nat)
    ensures var f := NextInt24(Xor(s, MULT));
      var g := NextInt24(f.0);
      ChunkFrom(24, s) == Chunk(f.1, g.1) && 0 <= f.1 < 24 && 0 <= g.1 < 24
  {
    NextInt24Correct(Xor(s, MULT));
    NextInt24Correct(FirstState(s));
    DrawIn24(Bits31(FirstState(s)));
    DrawIn24(Bits31(Step(FirstState(s))));
  }

  datatype Quad = Quad(k0: Chunk, k1: Chunk, k2: Chunk, k3: Chunk)

  /** The chunks of the four regions of a quad structure based at region (0,0). */
  function QuadOf(salt: int, seed: int): Quad {
    Quad(ChunkInRegion(QuadConfig(salt), seed, 0, 0), ChunkInRegion(QuadConfig(salt), seed, 1, 1),
         ChunkInRegion(QuadConfig(salt), seed, 1, 0), ChunkInRegion(QuadConfig(salt), seed, 0, 1))
  }

  /** The same chunks from the region seeds that the test computes. */
  function QuadFrom(s: nat): Quad {
    Quad(ChunkFrom(24, s), ChunkFrom(24, U64(A + B + s)), ChunkFrom(24, U64(A + s)), ChunkFrom(24, U64(B + s)))
  }

  lemma RegionSeeds(salt: int, seed: int)
    ensures QuadFrom(U64(seed + salt)) == QuadOf(salt, seed)
  {
    var s := U64(seed + salt);
    ModAddCong(s, seed + salt, A + B, A + B, TWO64);
    ModAddCong(s, seed + salt, A, A, TWO64);
    ModAddCong(s, seed + salt, B, B, TWO64);
    assert RegionSeed(QuadConfig(salt), seed, 0, 0) == s;
    assert RegionSeed(QuadConfig(salt), seed, 1, 1) == U64(A + B + s);
    assert RegionSeed(QuadConfig(salt), seed, 1, 0) == U64(A + s);
    assert RegionSeed(QuadConfig(salt), seed, 0, 1) == U64(B + s);
  }

  function QuadCorners(q: Quad, ax: nat, az: nat): Corners {
    CornersOf(q.k0, q.k1, q.k2, q.k3, ax, az, 32)
  }

  /** The chunks of two opposite structures, dx and dz apart, are near. */
  predicate Within(dx: int, dz: int) {
    Square(dx) + Square(dz) <= 255
  }

  /** The guards of the early rejections. */
  predicate Close(q: Quad) {
    && q.k0.x >= 20 && q.k0.z >= 20
    && q.k1.x <= q.k0.x - 20 && q.k1.z <= q.k0.z - 20
    && Within(q.k1.x + 32 - q.k0.x, q.k1.z + 32 - q.k0.z)
    && q.k2.x < 4 && q.k2.z >= 20 && q.k3.x >= 20 && q.k3.z < 4
    && Within(q.k2.x + 32 - q.k3.x, q.k3.z + 32 - q.k2.z)
  }

  predicate InRange(k: Chunk) {
    0 <= k.x < 24 && 0 <= k.z < 24
  }

  /** Draws one region with the macro. */
  method DrawRegion(s: nat) returns (k: Chunk)
    ensures k == ChunkFrom(24, s) && InRange(k)
  {
    MacroDraws(s);
    var f := NextInt24(Xor(s, MULT));
    var g := NextInt24(f.0);
    k := Chunk(f.1, g.1);
  }

  /** Draws the four regions from the unscrambled seed of region (0,0). */
  method DrawQuad(s: nat) returns (q: Quad)
    ensures q == QuadFrom(s)
  {
    var k0 := DrawRegion(s);
    var k1 := DrawRegion(U64(A + B + s));
    var k2 := DrawRegion(U64(A + s));
    var k3 := DrawRegion(U64(B + s));
    q := Quad(k0, k1, k2, k3);
  }

  /** Four times a squared radius: reached at some block, undercut at none in reach. */
  ghost predicate LeastRadius(c: Corners, ay: nat, fourSquares: nat) {
    && (exists x, z :: InReach(c, ay, x, z) && fourSquares == 4 * Farthest(c, x, z) + ay * ay)
    && (forall x, z :: InReach(c, ay, x, z) ==> fourSquares <= 4 * Farthest(c, x, z) + ay * ay)
  }

  ghost predicate Measured(c: Corners, ay: nat, r: Quality) {
    match r
    case NoBase => !HasCentre(c, ay)
    case Base(f) => HasCentre(c, ay) && LeastRadius(c, ay, f)
  }

  /** `isQuadBaseFeature24`: a seed whose chunks fail the guards is no base; any other is
      measured. The draws have no effect outside, so all eight are made first. */
  method IsQuadBaseFeature24(salt: int, seed: int, ax: nat, ay: nat, az: nat) returns (r: Quality)
    ensures Close(QuadOf(salt, seed)) ==> Measured(QuadCorners(QuadOf(salt, seed), ax, az), ay, r)
    ensures !Close(QuadOf(salt, seed)) ==> r == NoBase
  {
    RegionSeeds(salt, seed);
    var q := DrawQuad(U64(seed + salt));
    r := TestQuad(q, ax, ay, az);
  }

  method TestQuad(q: Quad, ax: nat, ay: nat, az: nat) returns (r: Quality)
    ensures Close(q) ==> Measured(QuadCorners(q, ax, az), ay, r)
    ensures !Close(q) ==> r == NoBase
  {
    r := NoBase;
    if q.k0.x < 20 || q.k0.z < 20 { return; }
    if q.k1.x > q.k0.x - 20 || q.k1.z > q.k0.z - 20 { return; }
    if !Within(q.k1.x + 32 - q.k0.x, q.k1.z + 32 - q.k0.z) { return; }
    if q.k2.x >= 4 || q.k2.z < 20 { return; }
    if q.k3.x < 20 || q.k3.z >= 4 { return; }
    if !Within(q.k2.x + 32 - q.k3.x, q.k3.z + 32 - q.k2.z) { return; }
    r := Enclose(QuadCorners(q, ax, az), ay);
  }

  /** The radius computation and its comparison with 128. */
  method Enclose(c: Corners, ay: nat) returns (r: Quality)
    ensures Measured(c, ay, r)
  {
    var sq := EnclosingSquare(c, 128);
    RadiusDecides(c, ay, sq);
    MulMonotone(0, ay, 0, ay);
    if sq < NO_CENTRE && 4 * sq + ay * ay < 4 * 0x4000 {
      LeastIsLeast(c, ay, sq);
      r := Base(4 * sq + ay * ay);
    } else {
      r := NoBase;
    }
  }

  lemma LeastIsLeast(c: Corners, ay: nat, sq: nat)
    requires LeastBefore(c, SearchWindow(c, 128), SearchWindow(c, 128).z1 + 1, SearchWindow(c, 128).x0, sq)
    requires sq < NO_CENTRE && 4 * sq + ay * ay < 4 * 0x4000
    ensures LeastRadius(c, ay, 4 * sq + ay * ay)
  {
    forall x, z | InReach(c, ay, x, z) ensures sq <= Farthest(c, x, z) {
      CentreInWindow(c, ay, x, z);
    }
    var w := SearchWindow(c, 128);
    var a, b :| w.x0 <= a <= w.x1 && w.z0 <= b <= w.z1 && Farthest(c, a, b) == sq;
    assert InReach(c, ay, a, b);
  }

  // -------------------------------------------------------- the guards and witch huts

  lemma SumOfSquares(p: int, q: int)
    ensures Square(p - q) <= 2 * Square(p) + 2 * Square(q)
  {
    assert Square(p - q) + Square(p + q) == 2 * Square(p) + 2 * Square(q);
  }

  lemma Mirror(p: int)
    ensures Square(-p) == Square(p)
  {
  }

  lemma SquareGrows(a: nat, b: nat)
    requires a <= b
    ensures Square(a) <= Square(b)
  {
    MulMonotone(a, b, a, b);
  }

  /** The block at (a, b) from one of two corners that are u and v apart is in reach of
      both. */
  predicate Joins(u: int, v: int, ay: nat, a: int, b: int) {
    4 * Max(Square(a) + Square(b), Square(u - a) + Square(v - b)) + ay * ay < 4 * 0x4000
  }

  /** Two corners that are u and v apart are in reach of one block. */
  ghost predicate PairInReach(u: int, v: int, ay: nat) {
    exists a, b :: Joins(u, v, ay, a, b)
  }

  lemma JoinedAreNear(u: int, v: int, ay: nat, a: int, b: int)
    requires Joins(u, v, ay, a, b)
    ensures Square(u) + Square(v) + ay * ay < 0x1_0000
  {
    SumOfSquares(a, a - u);
    SumOfSquares(b, b - v);
    Mirror(u - a);
    Mirror(v - b);
  }

  /** For even distances only the distance counts. */
  lemma EvenPair(u: int, v: int, ay: nat)
    requires u % 2 == 0 && v % 2 == 0
    ensures PairInReach(u, v, ay) <==> Square(u) + Square(v) + ay * ay < 0x1_0000
  {
    if PairInReach(u, v, ay) {
      var a, b :| Joins(u, v, ay, a, b);
      JoinedAreNear(u, v, ay, a, b);
    }
    HalfSquare(u / 2);
    HalfSquare(v / 2);
    if Square(u) + Square(v) + ay * ay < 0x1_0000 { assert Joins(u, v, ay, u / 2, v / 2); }
  }

  lemma HalfSquare(h: int)
    ensures Square(2 * h) == 4 * Square(h)
  {
  }

  /** Chunk distances of two opposite structures in reach of one block: they pass the
      guards unless they are exactly 13 chunks apart on one axis and 9 on the other. */
  lemma DiagonalCases(dx: int, dz: int, ax: nat, az: nat)
    requires 9 <= dx && 9 <= dz && Square(16 * dx + ax) + Square(16 * dz + az) < 0x1_0000
    ensures (dx <= 12 && dz <= 12 && Within(dx, dz)) || (dx == 13 && dz == 9) || (dx == 9 && dz == 13)
  {
    SquareGrows(16 * dx, 16 * dx + ax);
    SquareGrows(16 * dz, 16 * dz + az);
    SixteenSquared(dx);
    SixteenSquared(dz);
    SquareGrows(9, dx);
    SquareGrows(9, dz);
    if dx >= 14 { SquareGrows(14, dx); }
    if dz >= 14 { SquareGrows(14, dz); }
    if dx >= 13 { SquareGrows(13, dx); }
    if dz >= 13 { SquareGrows(13, dz); }
    if dx >= 10 { SquareGrows(10, dx); }
    if dz >= 10 { SquareGrows(10, dz); }
  }

  lemma SixteenSquared(d: int)
    ensures Square(16 * d) == 256 * Square(d)
  {
  }

  predicate AllInRange(q: Quad) {
    InRange(q.k0) && InRange(q.k1) && InRange(q.k2) && InRange(q.k3)
  }

  /** The guards lose no base of this size. */
  ghost predicate LosesNothing(ax: nat, ay: nat, az: nat) {
    forall q | AllInRange(q) && HasCentre(QuadCorners(q, ax, az), ay) :: Close(q)
  }

  /** Two corners with one of the distances that the guards are too strict for. */
  ghost predicate LostPair(ax: nat, ay: nat, az: nat) {
    PairInReach(208 + ax, 144 + az, ay) || PairInReach(144 + ax, 208 + az, ay)
  }

  /** A diagonal of a quad in reach of one block passes its guards or is a lost pair. */
  lemma DiagonalInReach(dx: int, dz: int, ax: nat, ay: nat, az: nat, a: int, b: int)
    requires 9 <= dx && 9 <= dz && Joins(16 * dx + ax, 16 * dz + az, ay, a, b) && !LostPair(ax, ay, az)
    ensures dx <= 12 && dz <= 12 && Within(dx, dz)
  {
    JoinedAreNear(16 * dx + ax, 16 * dz + az, ay, a, b);
    DiagonalCases(dx, dz, ax, az);
  }

  lemma MirroredJoin(c: Corners, ay: nat, x: int, z: int)
    requires InReach(c, ay, x, z)
    ensures Joins(c.p1.x - c.p0.x, c.p1.z - c.p0.z, ay, x - c.p0.x, z - c.p0.z)
    ensures Joins(c.p2.x - c.p3.x, c.p3.z - c.p2.z, ay, x - c.p3.x, c.p3.z - z)
  {
    Mirror(x - c.p1.x);
    Mirror(z - c.p1.z);
    Mirror(x - c.p2.x);
    Mirror(z - c.p3.z);
  }

  lemma GuardsAreImplied(q: Quad, ax: nat, ay: nat, az: nat)
    requires AllInRange(q) && HasCentre(QuadCorners(q, ax, az), ay) && !LostPair(ax, ay, az)
    ensures Close(q)
  {
    var c := QuadCorners(q, ax, az);
    var x, z :| InReach(c, ay, x, z);
    MirroredJoin(c, ay, x, z);
    DiagonalInReach(q.k1.x + 32 - q.k0.x, q.k1.z + 32 - q.k0.z, ax, ay, az, x - c.p0.x, z - c.p0.z);
    DiagonalInReach(q.k2.x + 32 - q.k3.x, q.k3.z + 32 - q.k2.z, ax, ay, az, x - c.p3.x, c.p3.z - z);
  }

  /** A block that joins corners far apart on the first axis lies near the middle there. */
  lemma NearMiddle(u: int, v: int, ay: nat, a: int, b: int)
    requires 208 <= u && 144 <= v && Joins(u, v, ay, a, b)
    ensures u - 32 <= 2 * a <= u + 32
  {
    NotBeyond(u, v, ay, a, b);
    Mirror(u - a);
    NotBeyond(u, v, ay, u - a, v - b);
  }

  lemma NotBeyond(u: int, v: int, ay: nat, a: int, b: int)
    requires 208 <= u && 144 <= v && Joins(u, v, ay, a, b)
    ensures 2 * a <= u + 32
  {
    if 2 * a > u + 32 {
      SquareGrows(121, a);
      SquareBelow(a, 128);
      SquareBelow(b, 44);
      SquareGrows(81, u - a);
      SquareGrows(101, v - b);
      assert false;
    }
  }

  /** A block in reach of two opposite corners is in reach of all four if it is from none
      of the others farther than from both of these. */
  lemma InReachOfAll(c: Corners, ay: nat, x: int, z: int)
    requires Joins(c.p1.x - c.p0.x, c.p1.z - c.p0.z, ay, x - c.p0.x, z - c.p0.z)
    requires DistSq(x, z, c.p2) <= Max(DistSq(x, z, c.p0), DistSq(x, z, c.p1))
    requires DistSq(x, z, c.p3) <= Max(DistSq(x, z, c.p0), DistSq(x, z, c.p1))
    ensures InReach(c, ay, x, z)
  {
    Mirror(c.p1.x - x);
    Mirror(c.p1.z - z);
  }

  /** A lost pair gives a quad with this distance on its first diagonal, and the other two
      corners between: whatever joins the pair is in reach of all four. */
  lemma LostQuadExists(ax: nat, ay: nat, az: nat)
    requires LostPair(ax, ay, az)
    ensures !LosesNothing(ax, ay, az)
  {
    if PairInReach(208 + ax, 144 + az, ay) {
      var a, b :| Joins(208 + ax, 144 + az, ay, a, b);
      var q := Quad(Chunk(21, 23), Chunk(2, 0), Chunk(0, 23), Chunk(23, 0));
      BetweenCorners(208 + ax, 144 + az, ay, a, b);
      InReachOfAll(QuadCorners(q, ax, az), ay, 336 + a, 368 + b);
      assert AllInRange(q) && !Close(q);
    } else {
      var a, b :| Joins(144 + ax, 208 + az, ay, a, b);
      var q := Quad(Chunk(23, 21), Chunk(0, 2), Chunk(0, 23), Chunk(23, 0));
      JoinsFlipped(144 + ax, 208 + az, ay, a, b);
      BetweenCorners(208 + az, 144 + ax, ay, b, a);
      InReachOfAll(QuadCorners(q, ax, az), ay, 368 + a, 336 + b);
      assert AllInRange(q) && !Close(q);
    }
  }

  lemma JoinsFlipped(u: int, v: int, ay: nat, a: int, b: int)
    ensures Joins(u, v, ay, a, b) <==> Joins(v, u, ay, b, a)
  {
  }

  lemma BetweenCorners(u: int, v: int, ay: nat, a: int, b: int)
    requires 208 <= u && 144 <= v && Joins(u, v, ay, a, b)
    ensures Square(a - (u - 32)) <= Square(a) && Square(a - 32) <= Square(u - a)
    ensures Square(a - u) == Square(u - a) && Square(b - v) == Square(v - b)
  {
    NearMiddle(u, v, ay, a, b);
    Nearer(a - 32, u - a);
    Nearer(u - 32 - a, a);
    Mirror(u - 32 - a);
    Mirror(u - a);
    Mirror(v - b);
  }

  lemma Nearer(a: int, b: int)
    requires a <= b && 0 <= a + b
    ensures Square(a) <= Square(b)
  {
    if a >= 0 { SquareGrows(a, b); } else { Mirror(a); SquareGrows(0 - a, b); }
  }

  /** The sizes for which the early rejections lose nothing: those for which no block is
      in reach of two corners 13 and 9 chunks, and the size, apart. */
  lemma WhenGuardsLoseNothing(ax: nat, ay: nat, az: nat)
    ensures LosesNothing(ax, ay, az) <==> !LostPair(ax, ay, az)
  {
    if !LostPair(ax, ay, az) {
      forall q | AllInRange(q) && HasCentre(QuadCorners(q, ax, az), ay) ensures Close(q) {
        GuardsAreImplied(q, ax, ay, az);
      }
    } else {
      LostQuadExists(ax, ay, az);
    }
  }

  /** For sizes even in plan this is an inequality on the size. */
  lemma EvenSizes(ax: nat, ay: nat, az: nat)
    requires ax % 2 == 0 && az % 2 == 0
    ensures LosesNothing(ax, ay, az) <==>
      Square(208 + ax) + Square(144 + az) + ay * ay >= 0x1_0000 &&
      Square(144 + ax) + Square(208 + az) + ay * ay >= 0x1_0000
  {
    WhenGuardsLoseNothing(ax, ay, az);
    EvenPair(208 + ax, 144 + az, ay);
    EvenPair(144 + ax, 208 + az, ay);
  }

  lemma ChunkInRange(s: nat)
    ensures InRange(ChunkFrom(24, s))
  {
    MacroDraws(s);
  }

  lemma QuadInRange(s: nat)
    ensures AllInRange(QuadFrom(s))
  {
    ChunkInRange(s);
    ChunkInRange(U64(A + B + s));
    ChunkInRange(U64(A + s));
    ChunkInRange(U64(B + s));
  }

  lemma ChunksInRange(salt: int, seed: int)
    ensures AllInRange(QuadOf(salt, seed))
  {
    RegionSeeds(salt, seed);
    QuadInRange(U64(seed + salt));
  }

  /** For such a size the test accepts a seed exactly when some block is within the
      radius of all four outer corners. */
  method IsBaseOfSize(salt: int, seed: int, ax: nat, ay: nat, az: nat) returns (r: Quality)
    requires !LostPair(ax, ay, az)
    ensures r.Base? <==> HasCentre(QuadCorners(QuadOf(salt, seed), ax, az), ay)
    ensures r.Base? ==> LeastRadius(QuadCorners(QuadOf(salt, seed), ax, az), ay, r.fourSquares)
  {
    r := IsQuadBaseFeature24(salt, seed, ax, ay, az);
    ChunksInRange(salt, seed);
    if HasCentre(QuadCorners(QuadOf(salt, seed), ax, az), ay) {
      GuardsAreImplied(QuadOf(salt, seed), ax, ay, az);
    }
  }

  /** Witch huts have such a size. */
  lemma HutsLoseNothing()
    ensures LosesNothing(8, 8, 10) && !LostPair(8, 8, 10)
  {
    EvenSizes(8, 8, 10);
    WhenGuardsLoseNothing(8, 8, 10);
  }

  /** For witch huts, (8, 8, 10), the test accepts a seed exactly when some block is
      within the radius of all four outer corners: the rejections lose nothing. */
  method IsHutBase(salt: int, seed: int) returns (r: Quality)
    ensures r.Base? <==> HasCentre(QuadCorners(QuadOf(salt, seed), 8, 10), 8)
    ensures r.Base? ==> LeastRadius(QuadCorners(QuadOf(salt, seed), 8, 10), 8, r.fourSquares)
  {
    HutsLoseNothing();
    r := IsBaseOfSize(salt, seed, 8, 8, 10);
  }
}
