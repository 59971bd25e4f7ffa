/** Structure generation attempts (finders.h): the chunk chosen inside a region, and
    moving a seed so that its structures shift by whole regions. */
module Structures {
  import opened Arith
  import opened JavaRandom
  import opened BoundedDraws

  const A: int := 341873128712
  const B: int := 132897987541

  datatype Config = Config(salt: int, regionSize: nat, chunkRange: nat)

  datatype Chunk = Chunk(x: int, z: int)

  /** The seed of a region before scrambling: 64-bit wrapping sums and products. */
  function RegionSeed(cfg: Config, seed: int, regX: int, regZ: int): nat {
    U64(seed + regX * A + regZ * B + cfg.salt)
  }

  /** The generator state after scrambling and one step, on 64-bit words. */
  function FirstState(s: nat): (r: nat)
    ensures r < TWO48
  {
    Step(Xor(s, MULT))
  }

  /** The scaled or reduced 31-bit draw; the mask test is the power-of-two test. */
  function DrawIn(r: nat, bits: nat): nat {
    if r == 0 then 0
    else if And(r - 1, r) != 0 then bits % r
    else U64(r * bits) / TWO31
  }

  /** The two draws that follow from a region seed. */
  function ChunkFrom(range: nat, s: nat): Chunk {
    Chunk(DrawIn(range, Bits31(FirstState(s))), DrawIn(range, Bits31(Step(FirstState(s)))))
  }

  /** `getFeatureChunkInRegion`. */
  function ChunkInRegion(cfg: Config, seed: int, regX: int, regZ: int): Chunk {
    ChunkFrom(cfg.chunkRange, RegionSeed(cfg, seed, regX, regZ))
  }

  /** `getFeaturePos`: the block position of the attempt. */
  function FeaturePos(cfg: Config, seed: int, regX: int, regZ: int): Chunk {
    var c := ChunkInRegion(cfg, seed, regX, regZ);
    Chunk((regX * cfg.regionSize + c.x) * 16, (regZ * cfg.regionSize + c.z) * 16)
  }

  /** `moveStructure`. */
  function MoveStructure(base: int, regX: int, regZ: int): (r: nat)
    ensures r < TWO48
  {
    U64(base - regX * A - regZ * B) % TWO48
  }

  // ----------------------------------------------------------------- only 48 bits count

  lemma StepCong(s: nat, s': nat)
    requires s % TWO48 == s' % TWO48
    ensures Step(s) == Step(s')
  {
    ModMulCong(s, s', MULT, MULT, TWO48);
    ModAddCong(s * MULT, s' * MULT, INC, INC, TWO48);
  }

  lemma FirstStateCong(s: nat, s': nat)
    requires s % TWO48 == s' % TWO48
    ensures FirstState(s) == FirstState(s')
  {
    Pow2Values();
    XorMod(s, s', MULT, 48);
    StepCong(Xor(s, MULT), Xor(s', MULT));
  }

  lemma RegionSeedLow(cfg: Config, seed: int, regX: int, regZ: int)
    ensures RegionSeed(cfg, seed, regX, regZ) % TWO48 == (seed + regX * A + regZ * B + cfg.salt) % TWO48
  {
    WrapIsInvisible(seed + regX * A + regZ * B + cfg.salt);
  }

  /** The top 16 bits of a seed do not influence structure attempts. */
  lemma TopBitsAreFree(cfg: Config, seed: int, seed': int, regX: int, regZ: int)
    requires seed % TWO48 == seed' % TWO48
    ensures ChunkInRegion(cfg, seed, regX, regZ) == ChunkInRegion(cfg, seed', regX, regZ)
  {
    var d := regX * A + regZ * B + cfg.salt;
    RegionSeedLow(cfg, seed, regX, regZ);
    RegionSeedLow(cfg, seed', regX, regZ);
    ModAddCong(seed, seed', d, d, TWO48);
    FirstStateCong(RegionSeed(cfg, seed, regX, regZ), RegionSeed(cfg, seed', regX, regZ));
  }

  /** A moved seed makes in region (rx, rz) the attempt that the original seed makes in
      region (rx - dx, rz - dz). */
  lemma MoveTranslates(cfg: Config, seed: int, dx: int, dz: int, rx: int, rz: int)
    ensures ChunkInRegion(cfg, MoveStructure(seed, dx, dz), rx, rz) == ChunkInRegion(cfg, seed, rx - dx, rz - dz)
  {
    var moved := seed - dx * A - dz * B;
    assert MoveStructure(seed, dx, dz) % TWO48 == moved % TWO48 by { WrapIsInvisible(moved); }
    TopBitsAreFree(cfg, MoveStructure(seed, dx, dz), moved, rx, rz);
    SeedShift(cfg, seed, moved, dx, dz, rx, rz);
  }

  /** In blocks: the moved seed's structure lies whole regions away from the original's. */
  lemma MoveTranslatesBlocks(cfg: Config, seed: int, dx: int, dz: int, rx: int, rz: int)
    ensures var p := FeaturePos(cfg, seed, rx, rz);
      var q := FeaturePos(cfg, MoveStructure(seed, dx, dz), rx + dx, rz + dz);
      q == Chunk(p.x + dx * cfg.regionSize * 16, p.z + dz * cfg.regionSize * 16)
  {
    MoveTranslates(cfg, seed, dx, dz, rx + dx, rz + dz);
    assert rx + dx - dx == rx && rz + dz - dz == rz;
    Distribute(rx, dx, cfg.regionSize);
    Distribute(rz, dz, cfg.regionSize);
  }

  lemma SeedShift(cfg: Config, seed: int, moved: int, dx: int, dz: int, rx: int, rz: int)
    requires moved == seed - dx * A - dz * B
    ensures ChunkInRegion(cfg, moved, rx, rz) == ChunkInRegion(cfg, seed, rx - dx, rz - dz)
  {
    SameRegionSeed(cfg, moved, rx, rz, seed, rx - dx, rz - dz);
  }

  lemma SameRegionSeed(cfg: Config, seed: int, rx: int, rz: int, seed': int, rx': int, rz': int)
    requires seed + rx * A + rz * B == seed' + rx' * A + rz' * B
    ensures RegionSeed(cfg, seed, rx, rz) == RegionSeed(cfg, seed', rx', rz')
    ensures ChunkInRegion(cfg, seed, rx, rz) == ChunkInRegion(cfg, seed', rx', rz')
  {
    assert RegionSeed(cfg, seed, rx, rz) == RegionSeed(cfg, seed', rx', rz');
  }

  /** Moving back restores the 48-bit seed, and moves add up. */
  lemma MoveComposes(seed: int, dx: int, dz: int, ex: int, ez: int)
    ensures MoveStructure(MoveStructure(seed, dx, dz), ex, ez) == MoveStructure(seed, dx + ex, dz + ez)
    ensures MoveStructure(MoveStructure(seed, dx, dz), -dx, -dz) == seed % TWO48
  {
    MovesAdd(seed, dx, dz, ex, ez);
    MovesAdd(seed, dx, dz, -dx, -dz);
    WrapIsInvisible(seed);
  }

  lemma MovesAdd(seed: int, dx: int, dz: int, ex: int, ez: int)
    ensures MoveStructure(MoveStructure(seed, dx, dz), ex, ez) == MoveStructure(seed, dx + ex, dz + ez)
  {
    var once := seed - dx * A - dz * B;
    WrapIsInvisible(once);
    MoveOnce(once, MoveStructure(seed, dx, dz), ex, ez);
    Distribute(dx, ex, A);
    Distribute(dz, ez, B);
    WrapIsInvisible(seed - (dx + ex) * A - (dz + ez) * B);
  }

  lemma MoveOnce(once: int, moved: int, ex: int, ez: int)
    requires moved % TWO48 == once % TWO48
    ensures MoveStructure(moved, ex, ez) == (once - ex * A - ez * B) % TWO48
  {
    var d := ex * A + ez * B;
    WrapIsInvisible(moved - d);
    ModAddCong(moved, once, d, d, TWO48);
    assert moved - ex * A - ez * B == moved - d;
    assert once - ex * A - ez * B == once - d;
  }

  // ------------------------------------------------------------ the game's own two draws

  /** Both raw draws of a region are accepted by the game's generator. */
  predicate BothAccepted(range: nat, s: nat)
    requires range > 0
  {
    Accepted31(range, Bits31(FirstState(s))) && Accepted31(range, Bits31(Step(FirstState(s))))
  }

  lemma DrawIsValue(r: nat, bits: nat)
    requires 0 < r < TWO31 && bits < TWO31
    ensures DrawIn(r, bits) == Value31(r, bits)
  {
    MulMonotone(r, TWO31, bits, TWO31);
    assert r * bits < TWO64;
  }

  /** The game seeds a generator with the region seed and draws twice below the range,
      redrawing rejected draws. The attempt without redraws is the same whenever both
      first draws are accepted. */
  method GameChunk(cfg: Config, seed: int, regX: int, regZ: int) returns (c: Chunk)
    requires 0 < cfg.chunkRange < TWO31
    ensures BothAccepted(cfg.chunkRange, RegionSeed(cfg, seed, regX, regZ)) ==>
      c == ChunkInRegion(cfg, seed, regX, regZ)
  {
    var s := RegionSeed(cfg, seed, regX, regZ);
    var random := new Random(s);
    ghost var s0 := random.seed;
    StepCong(s0, Xor(s, MULT));
    var x, n := random.NextInt(cfg.chunkRange);
    ghost var s1 := random.seed;
    var z, m := random.NextInt(cfg.chunkRange);
    FirstDraw(cfg.chunkRange, s0, n, s1);
    FirstDraw(cfg.chunkRange, s1, m, random.seed);
    Bits31Range(FirstState(s));
    Bits31Range(Step(FirstState(s)));
    DrawIsValue(cfg.chunkRange, Bits31(FirstState(s)));
    DrawIsValue(cfg.chunkRange, Bits31(Step(FirstState(s))));
    c := Chunk(x, z);
  }

  /** An accepted first draw is the only one. */
  lemma FirstDraw(range: nat, s: nat, n: nat, t: nat)
    requires range > 0 && n >= 1 && t == Steps(s, n)
    requires forall i :: 1 <= i < n ==> !Accepted31(range, Bits31(Steps(s, i)))
    ensures Accepted31(range, Bits31(Step(s))) ==> t == Step(s)
  {
    assert Steps(s, 1) == Step(s);
  }
}
