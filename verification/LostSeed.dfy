/** A seed whose four structures are in reach of one block although the quick test for
    quad bases rejects it (quadbase.h). */
module LostSeed {
  import opened Arith
  import opened HexXor
  import opened JavaRandom
  import opened Structures
  import opened QuadBase

  /** One step of the generator with its quotient, and the draw from the new state. */
  lemma StepAndDraw(u: nat, q: nat, f: nat, m: nat, k: nat, r: nat) returns (next: nat)
    requires u * MULT + INC == q * TWO48 + f && f < TWO48
    requires f == (24 * m + k) * 0x2_0000 + r && k < 24 && r < 0x2_0000
    ensures next == f && next == Step(u) && Bits31(next) % 24 == k
  {
    next := f;
    DivModUnique(u * MULT + INC, TWO48, q, f);
    DivModUnique(f, 0x2_0000, 24 * m + k, r);
    DivModUnique(24 * m + k, 24, m, k);
  }

  lemma DrawnChunk(f: nat, g: nat)
    ensures Chunk(DrawIn(24, Bits31(f)), DrawIn(24, Bits31(g))) == Chunk(Bits31(f) % 24, Bits31(g) % 24)
  {
    DrawIn24(Bits31(f));
    DrawIn24(Bits31(g));
  }

  lemma SumChunk(sum: Sum, s: nat, f: nat, g: nat, k: Chunk)
    requires Adds(sum) && Q(sum) == MULT && sum.p == s && f == Step(X(sum)) && g == Step(f)
    requires k == Chunk(Bits31(f) % 24, Bits31(g) % 24)
    ensures ChunkFrom(24, s) == k
  {
    LongXor(sum);
    assert FirstState(s) == f;
    DrawnChunk(f, g);
  }

  const LOST_QUAD: Quad := Quad(Chunk(23, 23), Chunk(4, 0), Chunk(0, 23), Chunk(23, 1))

  lemma LostSum0() returns (sum: Sum)
    ensures Adds(sum) && sum.p == 0xb4c97bdccd5d && Q(sum) == MULT && X(sum) == 0xb4cca5302b30
  {
    sum := Rest(0xb4c);
    sum := AddRow(sum, H9, H5, 0xb4c9, 0x5, 0xb4cc);
    sum := AddRow(sum, H7, HD, 0xb4c97, 0x5d, 0xb4cca);
    sum := AddRow(sum, HB, HE, 0xb4c97b, 0x5de, 0xb4cca5);
    sum := AddRow(sum, HD, HE, 0xb4c97bd, 0x5dee, 0xb4cca53);
    sum := AddRow(sum, HC, HC, 0xb4c97bdc, 0x5deec, 0xb4cca530);
    sum := AddRow(sum, HC, HE, 0xb4c97bdcc, 0x5deece, 0xb4cca5302);
    sum := AddRow(sum, HD, H6, 0xb4c97bdccd, 0x5deece6, 0xb4cca5302b);
    sum := AddRow(sum, H5, H6, 0xb4c97bdccd5, 0x5deece66, 0xb4cca5302b3);
    sum := AddRow(sum, HD, HD, 0xb4c97bdccd5d, 0x5deece66d, 0xb4cca5302b30);
  }

  lemma LostChunk0(s: nat)
    requires s == 0xb4c97bdccd5d
    ensures ChunkFrom(24, s) == LOST_QUAD.k0
  {
    var sum := LostSum0();
    var f := StepAndDraw(X(sum), 0x425700095, 0xbd570c8f837b, 0x3f1d042, 23, 0x1837b);
    var g := StepAndDraw(f, 0x45793f25e, 0x6d12289f7d6a, 0x245b62d, 23, 0x17d6a);
    SumChunk(sum, s, f, g, LOST_QUAD.k0);
  }

  lemma LostSum1() returns (sum: Sum)
    ensures Adds(sum) && sum.p == 0xb538066d1e3a && Q(sum) == MULT && X(sum) == 0xb53dd881f857
  {
    sum := Rest(0xb53);
    sum := AddRow(sum, H8, H5, 0xb538, 0x5, 0xb53d);
    sum := AddRow(sum, H0, HD, 0xb5380, 0x5d, 0xb53dd);
    sum := AddRow(sum, H6, HE, 0xb53806, 0x5de, 0xb53dd8);
    sum := AddRow(sum, H6, HE, 0xb538066, 0x5dee, 0xb53dd88);
    sum := AddRow(sum, HD, HC, 0xb538066d, 0x5deec, 0xb53dd881);
    sum := AddRow(sum, H1, HE, 0xb538066d1, 0x5deece, 0xb53dd881f);
    sum := AddRow(sum, HE, H6, 0xb538066d1e, 0x5deece6, 0xb53dd881f8);
    sum := AddRow(sum, H3, H6, 0xb538066d1e3, 0x5deece66, 0xb53dd881f85);
    sum := AddRow(sum, HA, HD, 0xb538066d1e3a, 0x5deece66d, 0xb53dd881f857);
  }

  lemma LostChunk1(s: nat)
    requires s == 0xb538066d1e3a
    ensures ChunkFrom(24, s) == LOST_QUAD.k1
  {
    var sum := LostSum1();
    var f := StepAndDraw(X(sum), 0x428089470, 0xe2b956a8e716, 0x4b931ce, 4, 0xe716);
    var g := StepAndDraw(f, 0x5330d3961, 0xec4dc1d02869, 0x4ec495f, 0, 0x2869);
    SumChunk(sum, s, f, g, LOST_QUAD.k1);
  }

  lemma LostSum2() returns (sum: Sum)
    ensures Adds(sum) && sum.p == 0xb5191516c265 && Q(sum) == MULT && X(sum) == 0xb51ccbfa2408
  {
    sum := Rest(0xb51);
    sum := AddRow(sum, H9, H5, 0xb519, 0x5, 0xb51c);
    sum := AddRow(sum, H1, HD, 0xb5191, 0x5d, 0xb51cc);
    sum := AddRow(sum, H5, HE, 0xb51915, 0x5de, 0xb51ccb);
    sum := AddRow(sum, H1, HE, 0xb519151, 0x5dee, 0xb51ccbf);
    sum := AddRow(sum, H6, HC, 0xb5191516, 0x5deec, 0xb51ccbfa);
    sum := AddRow(sum, HC, HE, 0xb5191516c, 0x5deece, 0xb51ccbfa2);
    sum := AddRow(sum, H2, H6, 0xb5191516c2, 0x5deece6, 0xb51ccbfa24);
    sum := AddRow(sum, H6, H6, 0xb5191516c26, 0x5deece66, 0xb51ccbfa240);
    sum := AddRow(sum, H5, HD, 0xb5191516c265, 0x5deece66d, 0xb51ccbfa2408);
  }

  lemma LostChunk2(s: nat)
    requires s == 0xb5191516c265
    ensures ChunkFrom(24, s) == LOST_QUAD.k2
  {
    var sum := LostSum2();
    var f := StepAndDraw(X(sum), 0x427468e56, 0xa685bd408773, 0x3781e9c, 0, 0x8773);
    var g := StepAndDraw(f, 0x3d19ec58e, 0x212b262efe02, 0xb0e620, 23, 0xfe02);
    SumChunk(sum, s, f, g, LOST_QUAD.k2);
  }

  lemma LostSum3() returns (sum: Sum)
    ensures Adds(sum) && sum.p == 0xb4e86d332932 && Q(sum) == MULT && X(sum) == 0xb4edb3dfcf5f
  {
    sum := Rest(0xb4e);
    sum := AddRow(sum, H8, H5, 0xb4e8, 0x5, 0xb4ed);
    sum := AddRow(sum, H6, HD, 0xb4e86, 0x5d, 0xb4edb);
    sum := AddRow(sum, HD, HE, 0xb4e86d, 0x5de, 0xb4edb3);
    sum := AddRow(sum, H3, HE, 0xb4e86d3, 0x5dee, 0xb4edb3d);
    sum := AddRow(sum, H3, HC, 0xb4e86d33, 0x5deec, 0xb4edb3df);
    sum := AddRow(sum, H2, HE, 0xb4e86d332, 0x5deece, 0xb4edb3dfc);
    sum := AddRow(sum, H9, H6, 0xb4e86d3329, 0x5deece6, 0xb4edb3dfcf);
    sum := AddRow(sum, H3, H6, 0xb4e86d33293, 0x5deece66, 0xb4edb3dfcf5);
    sum := AddRow(sum, H2, HD, 0xb4e86d332932, 0x5deece66d, 0xb4edb3dfcf5f);
  }

  lemma LostChunk3(s: nat)
    requires s == 0xb4e86d332932
    ensures ChunkFrom(24, s) == LOST_QUAD.k3
  {
    var sum := LostSum3();
    var f := StepAndDraw(X(sum), 0x426321357, 0x8dd3382ea57e, 0x2f46680, 23, 0xa57e);
    var g := StepAndDraw(f, 0x340a08201, 0xa162a8b3aab1, 0x35cb8d9, 1, 0x1aab1);
    SumChunk(sum, s, f, g, LOST_QUAD.k3);
  }

  const DESERT_PYRAMID_SALT: int := 14357617

  lemma LostChunks(s: nat)
    requires s == 0xb4c97bdccd5d
    ensures QuadFrom(s) == LOST_QUAD
  {
    LostChunk0(s);
    LostChunk1(A + B + s);
    LostChunk2(A + s);
    LostChunk3(B + s);
  }

  lemma LostQuad()
    ensures HasCentre(QuadCorners(LOST_QUAD, 0, 0), 0) && !Close(LOST_QUAD)
  {
    assert InReach(QuadCorners(LOST_QUAD, 0, 0), 0, 462, 454);
  }

  lemma LostQuadFrom(salt: int, seed: nat, s: nat)
    requires s == seed + salt && s == 0xb4c97bdccd5d
    ensures QuadOf(salt, seed) == LOST_QUAD
  {
    S64Small(s);
    RegionSeeds(salt, seed);
    LostChunks(s);
  }

  /** This seed has four desert pyramids, taken without size, in reach of one block; yet
      the guards reject them, since x1 = 4 is above x0 - 20. */
  lemma LostSeed(seed: nat)
    requires seed == 198777445136620
    ensures HasCentre(QuadCorners(QuadOf(DESERT_PYRAMID_SALT, seed), 0, 0), 0)
    ensures !Close(QuadOf(DESERT_PYRAMID_SALT, seed))
  {
    LostQuadFrom(DESERT_PYRAMID_SALT, seed, seed + DESERT_PYRAMID_SALT);
    LostQuad();
  }

  /** So the test returns no base for it. */
  method TestLostSeed(seed: nat) returns (r: Quality)
    requires seed == 198777445136620
    ensures r == NoBase && HasCentre(QuadCorners(QuadOf(DESERT_PYRAMID_SALT, seed), 0, 0), 0)
  {
    LostSeed(seed);
    r := IsQuadBaseFeature24(DESERT_PYRAMID_SALT, seed, 0, 0, 0);
  }
}
