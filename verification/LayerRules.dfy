/** What one cell of a map layer is, given the cells of its parents around it
    (layers.c). */
module LayerRules {
  import opened Arith
  import opened Versions
  import opened LayerSeeds

  /** Start salt and start seed of a layer. */
  datatype Seeds = Seeds(salt: nat, seed: nat)

  /** A cell and its eight neighbours; the first digit counts columns, the second rows. */
  datatype Nine = Nine(v00: int, v10: int, v20: int, v01: int, v11: int, v21: int, v02: int, v12: int, v22: int)

  function Around(f: (int, int) -> int, x: int, z: int): Nine {
    Nine(f(x - 1, z - 1), f(x, z - 1), f(x + 1, z - 1),
         f(x - 1, z), f(x, z), f(x + 1, z),
         f(x - 1, z + 1), f(x, z + 1), f(x + 1, z + 1))
  }

  /** A cell and its four diagonal neighbours, which is what land looks at. */
  datatype Diagonal = Diagonal(v00: int, v20: int, v11: int, v02: int, v22: int)

  function Diagonals(f: (int, int) -> int, x: int, z: int): Diagonal {
    Diagonal(f(x - 1, z - 1), f(x + 1, z - 1), f(x, z), f(x - 1, z + 1), f(x + 1, z + 1))
  }

  /** `mapContinent`: one cell in ten is land, and the origin. */
  predicate ContinentDraw(s: Seeds, x: int, z: int) {
    FirstIsZero(ChunkSeed(s.seed, x, z), 10)
  }

  function ContinentCell(s: Seeds, x: int, z: int): int {
    if (x == 0 && z == 0) || ContinentDraw(s, x, z) then 1 else 0
  }

  // ---------------------------------------------------------------------------- land

  datatype Draw = Draw(cs: nat, inc: nat, v: int)

  /** A corner is counted, its value is taken or not, and the seed advances; an ocean
      corner is passed over. */
  function Corner(s: Seeds, d: Draw, corner: int, taken: bool): Draw {
    if corner == OCEAN then d
    else Draw(StepSeed(d.cs, s.salt), d.inc + 1, if taken then corner else d.v)
  }

  /** Whether the second, third and fourth corner is taken, as the code asks after
      counting it. */
  function Second(s: Seeds, d: Draw, corner: int): Draw {
    Corner(s, d, corner, d.inc + 1 == 1 || FirstIsZero(d.cs, 2))
  }

  function Third(s: Seeds, d: Draw, corner: int): Draw {
    Corner(s, d, corner, match d.inc + 1
                         case 1 => true
                         case 2 => FirstIsZero(d.cs, 2)
                         case _ => FirstIsZero(d.cs, 3))
  }

  function Fourth(s: Seeds, d: Draw, corner: int): Draw {
    Corner(s, d, corner, match d.inc + 1
                         case 1 => true
                         case 2 => FirstIsZero(d.cs, 2)
                         case 3 => FirstIsZero(d.cs, 3)
                         case _ => FirstIsZero(d.cs, 4))
  }

  /** `mapLand` for an ocean cell with some non-ocean corner, unrolled as in the code. */
  function CoastCell(s: Seeds, v: Diagonal, x: int, z: int): int {
    var d0 := Draw(ChunkSeed(s.seed, x, z), 0, 1);
    var d4 := Fourth(s, Third(s, Second(s, Corner(s, d0, v.v00, true), v.v20), v.v02), v.v22);
    if d4.v != FOREST && !FirstIsZero(d4.cs, 3) then OCEAN else d4.v
  }

  function LandCell(s: Seeds, v: Diagonal, x: int, z: int): int {
    if v.v11 == OCEAN then
      if v.v00 != 0 || v.v20 != 0 || v.v02 != 0 || v.v22 != 0 then CoastCell(s, v, x, z) else OCEAN
    else if v.v11 == FOREST then FOREST
    else if (v.v00 == 0 || v.v20 == 0 || v.v02 == 0 || v.v22 == 0) && FirstIsZero(ChunkSeed(s.seed, x, z), 5) then 0
    else v.v11
  }

  /** The game's own code: `mcNextInt(inc++) == 0` decides on each non-ocean corner, and
      a last draw out of three on the cell. */
  function GameCorner(s: Seeds, d: Draw, corner: int): (e: Draw)
    requires d.inc > 0
    ensures e.inc > 0
  {
    if corner == 0 then d
    else Draw(StepSeed(d.cs, s.salt), d.inc + 1, if FirstInt(d.cs, d.inc) == 0 then corner else d.v)
  }

  function GameCoast(s: Seeds, v: Diagonal, x: int, z: int): int {
    var d0 := Draw(ChunkSeed(s.seed, x, z), 1, 1);
    var d4 := GameCorner(s, GameCorner(s, GameCorner(s, GameCorner(s, d0, v.v00), v.v20), v.v02), v.v22);
    if FirstInt(d4.cs, 3) == 0 then d4.v else if d4.v == FOREST then FOREST else OCEAN
  }

  /** The same state for the game, whose counter starts at 1. */
  function Counted(d: Draw): (e: Draw)
    ensures e.inc > 0
  {
    d.(inc := d.inc + 1)
  }

  /** A corner taken with chance 1 in inc + 1 is a corner of the game. */
  lemma SameCorner(s: Seeds, d: Draw, corner: int, taken: bool)
    requires taken == (d.inc + 1 == 1 || FirstIsZero(d.cs, d.inc + 1))
    ensures GameCorner(s, Counted(d), corner) == Counted(Corner(s, d, corner, taken))
  {
    FirstIntIsFloorMod(d.cs, d.inc + 1);
  }

  /** The saturating chances are right for the corners that can have come before. */
  lemma SameCorners(s: Seeds, d: Draw, corner: int)
    ensures d.inc <= 0 ==> GameCorner(s, Counted(d), corner) == Counted(Corner(s, d, corner, true))
    ensures d.inc <= 1 ==> GameCorner(s, Counted(d), corner) == Counted(Second(s, d, corner))
    ensures d.inc <= 2 ==> GameCorner(s, Counted(d), corner) == Counted(Third(s, d, corner))
    ensures d.inc <= 3 ==> GameCorner(s, Counted(d), corner) == Counted(Fourth(s, d, corner))
  {
    SameCorner(s, d, corner, d.inc + 1 == 1 || FirstIsZero(d.cs, d.inc + 1));
  }

  lemma AtMostOneMore(s: Seeds, d: Draw, corner: int)
    ensures forall taken :: Corner(s, d, corner, taken).inc <= d.inc + 1
  {
  }

  /** The unrolled code draws what the game draws. */
  lemma CoastIsGame(s: Seeds, v: Diagonal, x: int, z: int)
    ensures CoastCell(s, v, x, z) == GameCoast(s, v, x, z)
  {
    var d0 := Draw(ChunkSeed(s.seed, x, z), 0, 1);
    var d1, g1 := FirstTwo(s, v, d0);
    SameCorners(s, d1, v.v02);
    AtMostOneMore(s, d1, v.v02);
    var d3 := Third(s, d1, v.v02);
    SameCorners(s, d3, v.v22);
    var d4 := Fourth(s, d3, v.v22);
    FirstIntIsFloorMod(d4.cs, 3);
  }

  lemma FirstTwo(s: Seeds, v: Diagonal, d0: Draw) returns (d: Draw, g: Draw)
    requires d0.inc == 0
    ensures d == Second(s, Corner(s, d0, v.v00, true), v.v20) && d.inc <= 2
    ensures g == GameCorner(s, GameCorner(s, Counted(d0), v.v00), v.v20) == Counted(d)
  {
    SameCorners(s, d0, v.v00);
    AtMostOneMore(s, d0, v.v00);
    var d1 := Corner(s, d0, v.v00, true);
    SameCorners(s, d1, v.v20);
    AtMostOneMore(s, d1, v.v20);
    d := Second(s, d1, v.v20);
    g := Counted(d);
  }

  // ------------------------------------------------------------- other unit layers

  /** Where `mapIsland` lets an island rise. */
  predicate Rises(s: Seeds, x: int, z: int) {
    FirstIsZero(ChunkSeed(s.seed, x, z), 2)
  }

  function RiseFn(s: Seeds): (int, int) -> bool {
    (x: int, z: int) => Rises(s, x, z)
  }

  predicate OceanAround(v: Nine) {
    v.v11 == OCEAN && v.v10 == OCEAN && v.v21 == OCEAN && v.v01 == OCEAN && v.v12 == OCEAN
  }

  /** `mapIsland`, for the cells where islands may rise. */
  function IslandRule(rises: (int, int) -> bool): (Nine, int, int) -> int {
    (v: Nine, x: int, z: int) => if OceanAround(v) && rises(x, z) then 1 else v.v11
  }

  /** `mapMushroom`. */
  function MushroomCell(s: Seeds, v: Nine, x: int, z: int): int {
    if v.v11 == 0 && v.v00 == 0 && v.v20 == 0 && v.v02 == 0 && v.v22 == 0
      && FirstIsZero(ChunkSeed(s.seed, x, z), 100)
    then MUSHROOM_FIELDS else v.v11
  }

  /** `mapSmooth`; the drawn bit is bit 24 of the chunk seed. */
  function SmoothCell(s: Seeds, v: Nine, x: int, z: int): int {
    if v.v11 == v.v01 && v.v11 == v.v10 then v.v11
    else if v.v01 == v.v21 && v.v10 == v.v12 then
      if ChunkSeed(s.seed, x, z) / 0x100_0000 % 2 == 1 then v.v10 else v.v01
    else if v.v10 == v.v12 then v.v10
    else if v.v01 == v.v21 then v.v01
    else v.v11
  }

  // ----------------------------------------------------------- layers with two parents

  predicate IsShallowOcean(id: int) {
    id in {OCEAN, FROZEN_OCEAN, WARM_OCEAN, LUKEWARM_OCEAN, COLD_OCEAN}
  }

  predicate IsDeepOcean(id: int) {
    id in {DEEP_OCEAN, DEEP_WARM_OCEAN, DEEP_LUKEWARM_OCEAN, DEEP_COLD_OCEAN, DEEP_FROZEN_OCEAN}
  }

  predicate IsOceanic(id: int) {
    IsShallowOcean(id) || IsDeepOcean(id)
  }

  /** The biome tables that hills depend on: mutated variants and similarity. */
  datatype Tables = Tables(mutated: int -> int, similar: (int, int) -> bool)

  /** The hill variant that is considered for a biome. */
  function HillOf(mc: int, s: Seeds, tab: Tables, a11: int, cs: nat): int {
    if a11 == DESERT then DESERT_HILLS
    else if a11 == FOREST then WOODED_HILLS
    else if a11 == BIRCH_FOREST then BIRCH_FOREST_HILLS
    else if a11 == DARK_FOREST then PLAINS
    else if a11 == TAIGA then TAIGA_HILLS
    else if a11 == GIANT_TREE_TAIGA then GIANT_TREE_TAIGA_HILLS
    else if a11 == SNOWY_TAIGA then SNOWY_TAIGA_HILLS
    else if a11 == PLAINS then
      if mc <= MC_1_6 then FOREST
      else if FirstIsZero(StepSeed(cs, s.salt), 3) then WOODED_HILLS else FOREST
    else if a11 == SNOWY_TUNDRA then SNOWY_MOUNTAINS
    else if a11 == JUNGLE then JUNGLE_HILLS
    else if a11 == BAMBOO_JUNGLE then BAMBOO_JUNGLE_HILLS
    else if a11 == OCEAN then (if mc >= MC_1_7 then DEEP_OCEAN else a11)
    else if a11 == MOUNTAINS then (if mc >= MC_1_7 then WOODED_MOUNTAINS else a11)
    else if a11 == SAVANNA then SAVANNA_PLATEAU
    else if tab.similar(a11, WOODED_BADLANDS_PLATEAU) then BADLANDS
    else if IsDeepOcean(a11) && FirstIsZero(StepSeed(cs, s.salt), 3) then
      if FirstIsZero(StepSeed(StepSeed(cs, s.salt), s.salt), 2) then PLAINS else FOREST
    else a11
  }

  /** How many of the four direct neighbours are similar to the cell. */
  function SimilarSides(tab: Tables, v: Nine): nat {
    (if tab.similar(v.v10, v.v11) then 1 else 0) + (if tab.similar(v.v21, v.v11) then 1 else 0)
    + (if tab.similar(v.v01, v.v11) then 1 else 0) + (if tab.similar(v.v12, v.v11) then 1 else 0)
  }

  /** `mapHills`: v are biomes, b11 is the cell of the river branch. */
  function HillsCell(mc: int, s: Seeds, tab: Tables, v: Nine, b11: int, x: int, z: int): int {
    var a11 := v.v11;
    var bn := if mc >= MC_1_7 then TruncMod(b11 - 2, 29) else -1;
    if bn == 1 && b11 >= 2 && !IsShallowOcean(a11) then
      if tab.mutated(a11) > 0 then tab.mutated(a11) else a11
    else
      var cs := ChunkSeed(s.seed, x, z);
      if bn == 0 || FirstIsZero(cs, 3) then
        var hill := HillOf(mc, s, tab, a11, cs);
        var variant := if bn == 0 && hill != a11 then
                         if tab.mutated(hill) < 0 then a11 else tab.mutated(hill)
                       else hill;
        if variant != a11 && SimilarSides(tab, v) >= (if mc <= MC_1_6 then 4 else 3) then variant else a11
      else a11
  }

  /** `mapRiverMix`. */
  function RiverMixCell(mc: int, v: int, river: int): int {
    if river == RIVER && v != OCEAN && (mc <= MC_1_6 || !IsOceanic(v)) then
      if v == SNOWY_TUNDRA then FROZEN_RIVER
      else if v == MUSHROOM_FIELDS || v == MUSHROOM_FIELD_SHORE then MUSHROOM_FIELD_SHORE
      else RIVER
    else v
  }

  /** `mapOceanTemp`: the noise value selects the ocean. */
  function OceanTempCell(noise: real): int {
    if noise > 0.4 then WARM_OCEAN
    else if noise > 0.2 then LUKEWARM_OCEAN
    else if noise < -0.4 then FROZEN_OCEAN
    else if noise < -0.2 then COLD_OCEAN
    else OCEAN
  }

  /** Some land cell at the offsets -8, -4, 0, 4, 8 is not ocean. */
  predicate LandNear(land: (int, int) -> int, x: int, z: int) {
    exists a, b :: -2 <= a <= 2 && -2 <= b <= 2 && LandIsland(land, x, z, a, b)
  }

  predicate LandIsland(land: (int, int) -> int, x: int, z: int, a: int, b: int) {
    !IsOceanic(land(x + 4 * a, z + 4 * b))
  }

  /** The ocean that takes the place of warm or frozen ocean near land. */
  function Tempered(ocean: int): int {
    if ocean == WARM_OCEAN then LUKEWARM_OCEAN else if ocean == FROZEN_OCEAN then COLD_OCEAN else 0
  }

  function Deepened(ocean: int): int {
    if ocean == LUKEWARM_OCEAN then DEEP_LUKEWARM_OCEAN
    else if ocean == OCEAN then DEEP_OCEAN
    else if ocean == COLD_OCEAN then DEEP_COLD_OCEAN
    else if ocean == FROZEN_OCEAN then DEEP_FROZEN_OCEAN
    else ocean
  }

  /** `mapOceanMix`, from an unlimited land map. */
  function OceanMixCell(land: (int, int) -> int, ocean: int, x: int, z: int): int {
    if !IsOceanic(land(x, z)) then land(x, z)
    else if Tempered(ocean) != 0 && LandNear(land, x, z) then Tempered(ocean)
    else if land(x, z) == DEEP_OCEAN then Deepened(ocean)
    else ocean
  }

  // ------------------------------------------------------------------------------ zoom

  datatype Corners = Corners(v00: int, v10: int, v01: int, v11: int)

  /** Two by two cells: first row a, b and second row c, d. */
  datatype Block = Block(a: int, b: int, c: int, d: int)

  /** `cs *= cs * 1284865837 + 4150755663` on 32-bit words. */
  function Mix(cs: nat): nat {
    (cs * (cs * 1284865837 + 4150755663)) % TWO32
  }

  function Add32(cs: nat, k: int): nat {
    (cs + k) % TWO32
  }

  function ZoomSeed(ss: nat, cx: int, cz: int): nat {
    Add32(Mix(Add32(Mix(Add32(Mix(Add32(ss % TWO32, cx)), cz)), cx)), cz)
  }

  function Bits24(cs: nat, m: nat): nat
    requires m > 0
  {
    cs / 0x100_0000 % m
  }

  function Pick4(r: nat, v: Corners): int {
    if r == 0 then v.v00 else if r == 1 then v.v10 else if r == 2 then v.v01 else v.v11
  }

  /** The next draw of the zoom generator. */
  function NextZoom(cs: nat, st: nat): nat {
    Add32(Mix(cs), st)
  }

  function Equal(a: int, b: int): nat {
    if a == b then 1 else 0
  }

  /** `select4`. */
  function Select4(cs: nat, st: nat, v: Corners): int {
    var cv00 := Equal(v.v00, v.v10) + Equal(v.v00, v.v01) + Equal(v.v00, v.v11);
    var cv10 := Equal(v.v10, v.v01) + Equal(v.v10, v.v11);
    var cv01 := Equal(v.v01, v.v11);
    if cv00 > cv10 && cv00 > cv01 then v.v00
    else if cv10 > cv00 then v.v10
    else if cv01 > cv00 then v.v01
    else Pick4(Bits24(NextZoom(cs, st), 4), v)
  }

  function Count4(a: int, v: Corners): nat {
    Equal(a, v.v00) + Equal(a, v.v10) + Equal(a, v.v01) + Equal(a, v.v11)
  }

  /** a is more frequent among the four than every other value. */
  ghost predicate IsMode(a: int, v: Corners) {
    && (a != v.v00 ==> Count4(a, v) > Count4(v.v00, v)) && (a != v.v10 ==> Count4(a, v) > Count4(v.v10, v))
    && (a != v.v01 ==> Count4(a, v) > Count4(v.v01, v)) && (a != v.v11 ==> Count4(a, v) > Count4(v.v11, v))
    && Count4(a, v) > 0
  }

  /** The comparison of three counts finds the most frequent value, and draws one of the
      four exactly when there is none. */
  lemma Select4FindsMode(cs: nat, st: nat, v: Corners)
    ensures forall a :: IsMode(a, v) ==> Select4(cs, st, v) == a
    ensures (forall a :: !IsMode(a, v)) ==> Select4(cs, st, v) == Pick4(Bits24(NextZoom(cs, st), 4), v)
  {
    assert !IsMode(v.v00, v) && !IsMode(v.v10, v) && !IsMode(v.v01, v) && !IsMode(v.v11, v)
      ==> Select4(cs, st, v) == Pick4(Bits24(NextZoom(cs, st), 4), v);
  }

  /** The inner loop of `mapZoomFuzzy` and `mapZoom` for one parent cell. */
  function ZoomBlock(fuzzy: bool, s: Seeds, v: Corners, cx: int, cz: int): Block {
    if v.v00 == v.v01 && v.v00 == v.v10 && v.v00 == v.v11 then Block(v.v00, v.v00, v.v00, v.v00)
    else
      var st := s.salt % TWO32;
      var cs := ZoomSeed(s.seed, cx, cz);
      var cs1 := NextZoom(cs, st);
      Block(v.v00,
            if Bits24(cs1, 2) == 1 then v.v10 else v.v00,
            if Bits24(cs, 2) == 1 then v.v01 else v.v00,
            if fuzzy then Pick4(Bits24(NextZoom(cs1, st), 4), v) else Select4(cs1, st, v))
  }

  /** The part of a block in column i and row j. */
  function Part(b: Block, i: int, j: int): int {
    if i == 0 then (if j == 0 then b.a else b.c) else if j == 0 then b.b else b.d
  }

  /** The first column of a block ignores the parents to the right, the first row those
      below, and the first cell is the parent itself. */
  ghost predicate Local(g: (Corners, int, int) -> Block) {
    forall v: Corners, u: Corners, cx: int, cz: int :: v.v00 == u.v00 ==> SameEdges(g(v, cx, cz), g(u, cx, cz), v, u)
  }

  ghost predicate SameEdges(b: Block, e: Block, v: Corners, u: Corners) {
    b.a == e.a == v.v00 && (v.v10 == u.v10 ==> b.b == e.b) && (v.v01 == u.v01 ==> b.c == e.c)
  }

  /** Every cell of a block is one of the parents that it lies between. */
  lemma BlockCopiesParents(fuzzy: bool, s: Seeds, v: Corners, cx: int, cz: int)
    ensures var b := ZoomBlock(fuzzy, s, v, cx, cz);
      && b.a == v.v00 && b.b in {v.v00, v.v10} && b.c in {v.v00, v.v01} && b.d in {v.v00, v.v10, v.v01, v.v11}
      && (!fuzzy && (exists m :: IsMode(m, v)) ==> IsMode(b.d, v))
  {
    if !fuzzy {
      var cs := NextZoom(ZoomSeed(s.seed, cx, cz), s.salt % TWO32);
      Select4FindsMode(cs, s.salt % TWO32, v);
    }
  }

  /** Position (a, b) of the parent is one that (x, z) lies at or between. */
  ghost predicate Between(x: int, z: int, a: int, b: int) {
    x / 2 <= a <= (x + 1) / 2 && z / 2 <= b <= (z + 1) / 2
  }

  ghost predicate FoundInParent(f: (int, int) -> int, x: int, z: int, r: int) {
    exists a, b :: Between(x, z, a, b) && f(a, b) == r
  }

  /** So a zoomed map has no value that the parent does not have next to the place. */
  lemma ZoomAddsNothing(fuzzy: bool, s: Seeds, f: (int, int) -> int, x: int, z: int)
    ensures FoundInParent(f, x, z, ZoomFn(ZoomRule(fuzzy, s), f)(x, z))
  {
    var px, pz := x / 2, z / 2;
    var v := CornersOf(f, px, pz);
    var block := ZoomBlock(fuzzy, s, v, px * 2, pz * 2);
    BlockCopiesParents(fuzzy, s, v, px * 2, pz * 2);
    assert ZoomFn(ZoomRule(fuzzy, s), f)(x, z) == Part(block, x % 2, z % 2);
    PartInParent(f, x, z, block);
  }

  lemma PartInParent(f: (int, int) -> int, x: int, z: int, block: Block)
    requires var v := CornersOf(f, x / 2, z / 2);
      && block.a == v.v00 && block.b in {v.v00, v.v10} && block.c in {v.v00, v.v01}
      && block.d in {v.v00, v.v10, v.v01, v.v11}
    ensures FoundInParent(f, x, z, Part(block, x % 2, z % 2))
  {
    var px, pz := x / 2, z / 2;
    assert Between(x, z, px, pz);
    if x % 2 == 1 { assert Between(x, z, px + 1, pz); }
    if z % 2 == 1 { assert Between(x, z, px, pz + 1); }
    if x % 2 == 1 && z % 2 == 1 { assert Between(x, z, px + 1, pz + 1); }
  }

  function ZoomRule(fuzzy: bool, s: Seeds): (Corners, int, int) -> Block {
    (v: Corners, cx: int, cz: int) => ZoomBlock(fuzzy, s, v, cx, cz)
  }

  lemma ZoomIsLocal(fuzzy: bool, s: Seeds)
    ensures Local(ZoomRule(fuzzy, s))
  {
  }

  // ---------------------------------------------------------------- maps from rules

  /** The map that a rule makes of a parent map. */
  function FilterFn(g: (Nine, int, int) -> int, f: (int, int) -> int): (int, int) -> int {
    (x: int, z: int) => g(Around(f, x, z), x, z)
  }

  function LandFn(g: (Diagonal, int, int) -> int, f: (int, int) -> int): (int, int) -> int {
    (x: int, z: int) => g(Diagonals(f, x, z), x, z)
  }

  function HillsFn(g: (Nine, int, int, int) -> int, f: (int, int) -> int, f2: (int, int) -> int): (int, int) -> int {
    (x: int, z: int) => g(Around(f, x, z), f2(x, z), x, z)
  }

  function MixFn(g: (int, int) -> int, f: (int, int) -> int, f2: (int, int) -> int): (int, int) -> int {
    (x: int, z: int) => g(f(x, z), f2(x, z))
  }

  function CornersOf(f: (int, int) -> int, x: int, z: int): Corners {
    Corners(f(x, z), f(x + 1, z), f(x, z + 1), f(x + 1, z + 1))
  }

  /** Halving rounds down, as the shift in the code does. */
  function ZoomFn(g: (Corners, int, int) -> Block, f: (int, int) -> int): (int, int) -> int {
    (x: int, z: int) => Part(g(CornersOf(f, x / 2, z / 2), x / 2 * 2, z / 2 * 2), x % 2, z % 2)
  }

  function OceanFn(land: (int, int) -> int, ocean: (int, int) -> int): (int, int) -> int {
    (x: int, z: int) => OceanMixCell(land, ocean(x, z), x, z)
  }
}
