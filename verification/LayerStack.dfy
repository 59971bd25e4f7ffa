/** Trees of map layers (generator.c): recursive generation in one buffer, the map that
    a tree stands for, and the memory that the recursion needs. */
module LayerStack {
  import opened Arith
  import opened Grid
  import opened Buffer
  import opened LayerRules
  import opened LayerFilters
  import opened LayerZoom
  import opened LayerMix

  /** Layers without a parent, and layers that rewrite one parent in place. */
  datatype Leaf = Continent(s: Seeds) | OceanTemp(noise: (int, int) -> real)
  datatype Unit = Land(s: Seeds) | Island(s: Seeds) | Mushroom(s: Seeds) | Smooth(s: Seeds)

  datatype Layer =
    | Source(leaf: Leaf)
    | Single(unit: Unit, p: Layer)
    | Zoom(fuzzy: bool, s: Seeds, p: Layer)
    | Hills(mc: int, tab: Tables, s: Seeds, p: Layer, p2: Layer)
    | RiverMix(mc: int, p: Layer, p2: Layer)
    | OceanMix(p: Layer, p2: Layer)

  function LandRule(s: Seeds): (Diagonal, int, int) -> int {
    (v: Diagonal, x: int, z: int) => LandCell(s, v, x, z)
  }

  function MushroomRule(s: Seeds): (Nine, int, int) -> int {
    (v: Nine, x: int, z: int) => MushroomCell(s, v, x, z)
  }

  function SmoothRule(s: Seeds): (Nine, int, int) -> int {
    (v: Nine, x: int, z: int) => SmoothCell(s, v, x, z)
  }

  function HillsRule(mc: int, tab: Tables, s: Seeds): (Nine, int, int, int) -> int {
    (v: Nine, b11: int, x: int, z: int) => HillsCell(mc, s, tab, v, b11, x, z)
  }

  function RiverRule(mc: int): (int, int) -> int {
    (v: int, river: int) => RiverMixCell(mc, v, river)
  }

  function OceanTempFn(noise: (int, int) -> real): (int, int) -> int {
    (x: int, z: int) => OceanTempCell(noise(x, z))
  }

  function LeafFn(l: Leaf): (int, int) -> int {
    match l
    case Continent(s) => ContinentFn(s)
    case OceanTemp(noise) => OceanTempFn(noise)
  }

  function UnitFn(u: Unit, f: (int, int) -> int): (int, int) -> int {
    match u
    case Land(s) => LandFn(LandRule(s), f)
    case Island(s) => FilterFn(IslandRule(RiseFn(s)), f)
    case Mushroom(s) => FilterFn(MushroomRule(s), f)
    case Smooth(s) => FilterFn(SmoothRule(s), f)
  }

  /** The map of a layer tree: the value of every cell by its absolute position. */
  function CellFn(l: Layer): (int, int) -> int {
    match l
    case Source(leaf) => LeafFn(leaf)
    case Single(unit, p) => UnitFn(unit, CellFn(p))
    case Zoom(fuzzy, s, p) => ZoomFn(ZoomRule(fuzzy, s), CellFn(p))
    case Hills(mc, tab, s, p, p2) => HillsFn(HillsRule(mc, tab, s), CellFn(p), CellFn(p2))
    case RiverMix(mc, p, p2) => MixFn(RiverRule(mc), CellFn(p), CellFn(p2))
    case OceanMix(p, p2) => OceanFn(CellFn(p), CellFn(p2))
  }

  function Max(a: nat, b: nat): (m: nat)
    ensures m >= a && m >= b && (m == a || m == b)
  {
    if a > b then a else b
  }

  predicate HasTwo(l: Layer) {
    l.Hills? || l.RiverMix? || l.OceanMix?
  }

  /** Layers with two parents keep the rectangle of one in front of that of the other. */
  function Front(l: Layer): (p: Layer)
    requires HasTwo(l)
    ensures p < l
  {
    if l.OceanMix? then l.p2 else l.p
  }

  function Behind(l: Layer): (p: Layer)
    requires HasTwo(l)
    ensures p < l
  {
    if l.OceanMix? then l.p else l.p2
  }

  /** What is added to the size for the rectangle in front, and at most for the other. */
  function FrontEdge(l: Layer): nat {
    if l.Hills? then 2 else 0
  }

  function BehindEdge(l: Layer): nat {
    if l.Hills? then 2 else if l.OceanMix? then 16 else 0
  }

  /** Cells of buffer that generating w by h cells of a layer may touch, for any position. */
  function Need(l: Layer, w: nat, h: nat): nat
    decreases l, 1
  {
    match l
    case Source(_) => Times(h, w)
    case Single(_, p) => Need(p, w + 2, h + 2)
    case Zoom(_, _, p) => Max(5 * Times((h + 3) / 2, (w + 3) / 2), Need(p, (w + 3) / 2, (h + 3) / 2))
    case _ => Max(FrontNeed(l, w, h), Times(h + FrontEdge(l), w + FrontEdge(l)) + BehindNeed(l, w, h))
  }

  lemma TimesMonotone(a: nat, b: nat, c: nat, d: nat)
    requires a <= b && c <= d
    ensures Times(a, c) <= Times(b, d)
  {
    MulMonotone(a, b, c, d);
  }

  /** Larger rectangles need at least as much. */
  lemma {:induction false} NeedMonotone(l: Layer, w: nat, h: nat, w': nat, h': nat)
    requires w <= w' && h <= h'
    ensures Need(l, w, h) <= Need(l, w', h')
    decreases l, 1
  {
    match l
    case Source(_) => TimesMonotone(h, h', w, w');
    case Single(_, p) => NeedMonotone(p, w + 2, h + 2, w' + 2, h' + 2);
    case Zoom(_, _, p) =>
      NeedMonotone(p, (w + 3) / 2, (h + 3) / 2, (w' + 3) / 2, (h' + 3) / 2);
      ZoomGrows((w + 3) / 2, (h + 3) / 2, (w' + 3) / 2, (h' + 3) / 2,
        Need(p, (w + 3) / 2, (h + 3) / 2), Need(p, (w' + 3) / 2, (h' + 3) / 2));
    case _ => PairMonotone(l, w, h, w', h');
  }

  lemma {:induction false} PairMonotone(l: Layer, w: nat, h: nat, w': nat, h': nat)
    requires w <= w' && h <= h' && HasTwo(l)
    ensures Need(l, w, h) <= Need(l, w', h')
    decreases l, 0, 1
  {
    FrontMonotone(l, w, h, w', h');
    BehindMonotone(l, w, h, w', h');
    PairGrows(w + FrontEdge(l), h + FrontEdge(l), w' + FrontEdge(l), h' + FrontEdge(l),
        FrontNeed(l, w, h), FrontNeed(l, w', h'), BehindNeed(l, w, h), BehindNeed(l, w', h'));
  }

  lemma ZoomGrows(w: nat, h: nat, w': nat, h': nat, n: nat, n': nat)
    requires w <= w' && h <= h' && n <= n'
    ensures Max(5 * Times(h, w), n) <= Max(5 * Times(h', w'), n')
  {
    TimesMonotone(h, h', w, w');
  }

  lemma {:induction false} FrontMonotone(l: Layer, w: nat, h: nat, w': nat, h': nat)
    requires w <= w' && h <= h' && HasTwo(l)
    ensures FrontNeed(l, w, h) <= FrontNeed(l, w', h')
    decreases l, 0, 0
  {
    NeedMonotone(Front(l), w + FrontEdge(l), h + FrontEdge(l), w' + FrontEdge(l), h' + FrontEdge(l));
  }

  lemma {:induction false} BehindMonotone(l: Layer, w: nat, h: nat, w': nat, h': nat)
    requires w <= w' && h <= h' && HasTwo(l)
    ensures BehindNeed(l, w, h) <= BehindNeed(l, w', h')
    decreases l, 0, 0
  {
    NeedMonotone(Behind(l), w + BehindEdge(l), h + BehindEdge(l), w' + BehindEdge(l), h' + BehindEdge(l));
  }

  function FrontNeed(l: Layer, w: nat, h: nat): nat
    requires HasTwo(l)
    decreases l, 0
  {
    Need(Front(l), w + FrontEdge(l), h + FrontEdge(l))
  }

  function BehindNeed(l: Layer, w: nat, h: nat): nat
    requires HasTwo(l)
    decreases l, 0
  {
    Need(Behind(l), w + BehindEdge(l), h + BehindEdge(l))
  }

  lemma PairGrows(w: nat, h: nat, w': nat, h': nat, n: nat, n': nat, m: nat, m': nat)
    requires w <= w' && h <= h' && n <= n' && m <= m'
    ensures Max(n, Times(h, w) + m) <= Max(n', Times(h', w') + m')
  {
    TimesMonotone(h, h', w, w');
  }

  /** `getMap` of a layer: fills the rectangle at offset o with the layer's map, whatever
      the buffer held, within the memory that is needed and without touching what lies
      before it. */
  method Generate(l: Layer, a: array<int>, o: nat, x: int, z: int, w: nat, h: nat)
    requires o + Need(l, w, h) <= a.Length
    modifies a
    ensures Holds(a[..], o, CellFn(l), x, z, w, h) && a[..o] == old(a[..o])
    decreases l, 1
  {
    match l {
      case Source(leaf) => GenerateLeaf(leaf, a, o, x, z, w, h);
      case Single(unit, p) =>
        Generate(p, a, o, x - 1, z - 1, w + 2, h + 2);
        RewriteUnit(unit, CellFn(p), a, o, x, z, w, h);
      case Zoom(_, _, _) => GenerateZoom(l, a, o, x, z, w, h);
      case Hills(_, _, _, _, _) => GenerateHills(l, a, o, x, z, w, h);
      case RiverMix(_, _, _) => GenerateRiverMix(l, a, o, x, z, w, h);
      case OceanMix(_, _) => GenerateOceanMix(l, a, o, x, z, w, h);
    }
  }

  method GenerateLeaf(l: Leaf, a: array<int>, o: nat, x: int, z: int, w: nat, h: nat)
    requires o + Times(h, w) <= a.Length
    modifies a
    ensures Holds(a[..], o, LeafFn(l), x, z, w, h) && a[..o] == old(a[..o])
  {
    match l {
      case Continent(s) =>
        ContinentForcesOrigin(s);
        MapContinent(Scattered(s), ContinentFn(s), a, o, x, z, w, h);
      case OceanTemp(noise) => Fill(OceanTempFn(noise), a, o, x, z, w, h);
    }
  }

  method RewriteUnit(u: Unit, ghost f: (int, int) -> int, a: array<int>, o: nat, x: int, z: int, w: nat, h: nat)
    requires Holds(a[..], o, f, x - 1, z - 1, w + 2, h + 2)
    modifies a
    ensures Holds(a[..], o, UnitFn(u, f), x, z, w, h) && a[..o] == old(a[..o])
  {
    match u {
      case Land(s) => MapLand(LandRule(s), f, a, o, x, z, w, h);
      case Island(s) => MapIsland(RiseFn(s), f, a, o, x, z, w, h);
      case Mushroom(s) => MapFilter(MushroomRule(s), f, a, o, x, z, w, h);
      case Smooth(s) => MapFilter(SmoothRule(s), f, a, o, x, z, w, h);
    }
  }

  method GenerateZoom(l: Layer, a: array<int>, o: nat, x: int, z: int, w: nat, h: nat)
    requires l.Zoom? && o + Need(l, w, h) <= a.Length
    modifies a
    ensures Holds(a[..], o, CellFn(l), x, z, w, h) && a[..o] == old(a[..o])
    decreases l, 0
  {
    var pW, pH := ParentSpan(x, w), ParentSpan(z, h);
    NeedMonotone(l.p, pW, pH, (w + 3) / 2, (h + 3) / 2);
    TimesMonotone(pH, (h + 3) / 2, pW, (w + 3) / 2);
    Generate(l.p, a, o, x / 2, z / 2, pW, pH);
    ZoomIsLocal(l.fuzzy, l.s);
    MapZoom(ZoomRule(l.fuzzy, l.s), CellFn(l.p), a, o, x, z, w, h);
  }

  method GenerateHills(l: Layer, a: array<int>, o: nat, x: int, z: int, w: nat, h: nat)
    requires l.Hills? && o + Need(l, w, h) <= a.Length
    modifies a
    ensures Holds(a[..], o, CellFn(l), x, z, w, h) && a[..o] == old(a[..o])
    decreases l, 0
  {
    var o2 := o + Times(h + 2, w + 2);
    Generate(l.p, a, o, x - 1, z - 1, w + 2, h + 2);
    ghost var s := a[..];
    Generate(l.p2, a, o2, x - 1, z - 1, w + 2, h + 2);
    FrontKept(s, a[..], o, o2, CellFn(l.p), x - 1, z - 1, w + 2, h + 2);
    RowsLength(CellFn(l.p), x - 1, z - 1, w + 2, h + 2);
    MapHills(HillsRule(l.mc, l.tab, l.s), CellFn(l.p), CellFn(l.p2), a, o, o2, x, z, w, h);
  }

  method GenerateRiverMix(l: Layer, a: array<int>, o: nat, x: int, z: int, w: nat, h: nat)
    requires l.RiverMix? && o + Need(l, w, h) <= a.Length
    modifies a
    ensures Holds(a[..], o, CellFn(l), x, z, w, h) && a[..o] == old(a[..o])
    decreases l, 0
  {
    Generate(l.p, a, o, x, z, w, h);
    MixInRivers(l.p2, RiverRule(l.mc), CellFn(l.p), a, o, x, z, w, h);
  }

  /** The rest, with the biomes in place: the rivers behind them, and the mix. */
  method MixInRivers(p2: Layer, g: (int, int) -> int, ghost f: (int, int) -> int, a: array<int>, o: nat, x: int, z: int,
                     w: nat, h: nat)
    requires Holds(a[..], o, f, x, z, w, h) && o + Times(h, w) + Need(p2, w, h) <= a.Length
    modifies a
    ensures Holds(a[..], o, MixFn(g, f, CellFn(p2)), x, z, w, h) && a[..o] == old(a[..o])
    decreases p2, 3
  {
    ghost var s := a[..];
    var o2 := o + Times(h, w);
    Generate(p2, a, o2, x, z, w, h);
    FrontKept(s, a[..], o, o2, f, x, z, w, h);
    MapRiverMix(g, f, CellFn(p2), a, o, x, z, w, h);
  }

  method GenerateOceanMix(l: Layer, a: array<int>, o: nat, x: int, z: int, w: nat, h: nat)
    requires l.OceanMix? && o + Need(l, w, h) <= a.Length
    modifies a
    ensures Holds(a[..], o, CellFn(l), x, z, w, h) && a[..o] == old(a[..o])
    decreases l, 0
  {
    var o2 := o + Times(h, w);
    Generate(l.p2, a, o, x, z, w, h);
    MixInLand(l.p, CellFn(l.p2), a, o, o2, x, z, w, h);
  }

  /** The rest, with the ocean map in place: its border, the land, and the mix. */
  method MixInLand(p: Layer, ghost ocean: (int, int) -> int, a: array<int>, o: nat, o2: nat, x: int, z: int,
                   w: nat, h: nat)
    requires Holds(a[..], o, ocean, x, z, w, h)
    requires o2 == o + Times(h, w) && o2 + Need(p, w + 16, h + 16) <= a.Length
    modifies a
    ensures Holds(a[..], o, OceanFn(CellFn(p), ocean), x, z, w, h) && a[..o] == old(a[..o])
    decreases p, 3
  {
    ghost var s := a[..];
    var b := FindBorder(ocean, a, o, x, z, w, h);
    GenerateLand(p, a, o2, b, x, z, w, h);
    FrontKept(s, a[..], o, o2, ocean, x, z, w, h);
    ghost var m := Mix(a[..], o, o2, b, CellFn(p), ocean, x, z, w, h);
    MixingReady(m);
    MapOceanMix(a, m, o, o2, b, w, h);
  }

  method GenerateLand(p: Layer, a: array<int>, o2: nat, b: Border, x: int, z: int, ghost w: nat, ghost h: nat)
    requires Sound(b, w, h) && o2 + Need(p, w + 16, h + 16) <= a.Length
    modifies a
    ensures Holds(a[..], o2, CellFn(p), x + b.lx0, z + b.lz0, b.lx1 - b.lx0, b.lz1 - b.lz0) && a[..o2] == old(a[..o2])
    decreases p, 2
  {
    var lw: nat, lh: nat := b.lx1 - b.lx0, b.lz1 - b.lz0;
    NeedMonotone(p, lw, lh, w + 16, h + 16);
    Generate(p, a, o2, x + b.lx0, z + b.lz0, lw, lh);
  }

  lemma MixingReady(m: Mix)
    requires Holds(m.s, m.o, m.ocean, m.x, m.z, m.w, m.h) && m.o2 == m.o + Times(m.h, m.w)
    requires CoveredTo(m.b, m.ocean, m.x, m.z, m.w, m.h, m.h, 0)
    requires Holds(m.s, m.o2, m.land, m.x + m.b.lx0, m.z + m.b.lz0, m.b.lx1 - m.b.lx0, m.b.lz1 - m.b.lz0)
    ensures Mixing(m)
  {
  }

  lemma FrontKept(s: seq<int>, s': seq<int>, o: nat, o2: nat, f: (int, int) -> int, x: int, z: int, w: nat, h: nat)
    requires Holds(s, o, f, x, z, w, h) && o2 == o + Times(h, w) && |s'| == |s| && o2 <= |s| && s'[..o2] == s[..o2]
    ensures Holds(s', o, f, x, z, w, h) && s'[..o] == s[..o]
  {
    RowsLength(f, x, z, w, h);
    assert s'[o..o2] == s'[..o2][o..o2];
    assert s[o..o2] == s[..o2][o..o2];
    HoldsIn(s, s', o, Times(h, w), f, x, z, w, h);
    ShorterPrefix(s, s', o, o2);
  }

  // ------------------------------------------------------------------- the buffer size

  /** Running maxima and sum of `getMaxArea`. */
  datatype Area = Area(maxX: nat, maxZ: nat, siz: nat)

  function Edge(l: Layer): nat {
    match l
    case Source(_) => 0
    case Single(_, _) => 2
    case Zoom(_, _, _) => 3
    case Hills(_, _, _, _, _) => 2
    case RiverMix(_, _, _) => 0
    case OceanMix(_, _) => 17
  }

  /** What a layer adds before its parents are visited. */
  function Visit(l: Layer, areaX: nat, areaZ: nat, m: Area): Area {
    Area(Max(m.maxX, areaX), Max(m.maxZ, areaZ),
         m.siz + if l.Zoom? || HasTwo(l) then Times(areaX, areaZ) else 0)
  }

  /** The size asked of the parents. */
  function ParentArea(l: Layer, n: nat): nat {
    if l.Zoom? then (n + Edge(l)) / 2 else n + Edge(l)
  }

  /** The recursion of `getMaxArea` on values; the first parent comes first. */
  function MaxArea(l: Layer, x: nat, z: nat, m: Area): Area
    decreases l
  {
    var m1 := Visit(l, x + Edge(l), z + Edge(l), m);
    if l.Source? then m1
    else
      var first := MaxArea(l.p, ParentArea(l, x), ParentArea(l, z), m1);
      if HasTwo(l) then MaxArea(l.p2, ParentArea(l, x), ParentArea(l, z), first) else first
  }

  /** The three numbers that `getMaxArea` updates through pointers. */
  class Sizes {
    var maxX: nat
    var maxZ: nat
    var siz: nat

    constructor (maxX: nat, maxZ: nat)
      ensures Value() == Area(maxX, maxZ, 0)
    {
      this.maxX, this.maxZ, this.siz := maxX, maxZ, 0;
    }

    function Value(): Area
      reads this
    {
      Area(maxX, maxZ, siz)
    }

    /** The updates for one layer. */
    method Add(l: Layer, areaX: nat, areaZ: nat)
      modifies this
      ensures Value() == Visit(l, areaX, areaZ, old(Value()))
    {
      if l.Zoom? || HasTwo(l) { siz := siz + Times(areaX, areaZ); }
      if areaX > maxX { maxX := areaX; }
      if areaZ > maxZ { maxZ := areaZ; }
    }

    /** `getMaxArea`. */
    method GetMaxArea(l: Layer, x: nat, z: nat)
      modifies this
      ensures Value() == MaxArea(l, x, z, old(Value()))
      decreases l
    {
      var areaX, areaZ := x + Edge(l), z + Edge(l);
      Add(l, areaX, areaZ);
      if l.Source? { return; }
      if l.Zoom? { areaX, areaZ := areaX / 2, areaZ / 2; }
      assert areaX == ParentArea(l, x) && areaZ == ParentArea(l, z);
      GetMaxArea(l.p, areaX, areaZ);
      if HasTwo(l) { GetMaxArea(l.p2, areaX, areaZ); }
    }
  }

  /** `getMinLayerCacheSize`. */
  method GetMinLayerCacheSize(l: Layer, sizeX: nat, sizeZ: nat) returns (n: nat)
    ensures n == CacheSize(l, sizeX, sizeZ)
  {
    var m := new Sizes(sizeX, sizeZ);
    m.GetMaxArea(l, sizeX, sizeZ);
    n := m.siz + Times(m.maxX, m.maxZ);
  }

  function CacheSize(l: Layer, sizeX: nat, sizeZ: nat): nat {
    Total(MaxArea(l, sizeX, sizeZ, Area(sizeX, sizeZ, 0)))
  }

  function Total(m: Area): nat {
    m.siz + Times(m.maxX, m.maxZ)
  }

  ghost predicate Grown(m: Area, r: Area) {
    m.maxX <= r.maxX && m.maxZ <= r.maxZ && m.siz <= r.siz
  }

  lemma GrownTwice(m: Area, r: Area, q: Area)
    requires Grown(m, r) && Grown(r, q)
    ensures Grown(m, q)
  {
  }

  lemma {:induction false} MaxAreaGrows(l: Layer, x: nat, z: nat, m: Area)
    ensures Grown(Visit(l, x + Edge(l), z + Edge(l), m), MaxArea(l, x, z, m)) && Grown(m, MaxArea(l, x, z, m))
    decreases l
  {
    var areaX, areaZ := x + Edge(l), z + Edge(l);
    var m1 := Visit(l, areaX, areaZ, m);
    if l.Single? {
      MaxAreaGrows(l.p, areaX, areaZ, m1);
    } else if l.Zoom? {
      MaxAreaGrows(l.p, areaX / 2, areaZ / 2, m1);
    } else if HasTwo(l) {
      MaxAreaGrows(l.p, areaX, areaZ, m1);
      MaxAreaGrows(l.p2, areaX, areaZ, MaxArea(l.p, areaX, areaZ, m1));
      GrownTwice(m1, MaxArea(l.p, areaX, areaZ, m1), MaxArea(l, x, z, m));
    }
    GrownTwice(m, m1, MaxArea(l, x, z, m));
  }

  lemma TotalGrows(m: Area, r: Area)
    requires Grown(m, r)
    ensures Total(m) <= Total(r)
  {
    TimesMonotone(m.maxX, r.maxX, m.maxZ, r.maxZ);
  }

  /** The memory behind what was summed so far suffices for w by h cells of a layer. */
  ghost predicate Covers(l: Layer, w: nat, h: nat, siz: nat, r: Area) {
    siz + Need(l, w, h) <= Total(r)
  }

  /** A layer visited with an area of at least w by h finds its need in the result. */
  lemma {:induction false} CacheCovers(l: Layer, w: nat, h: nat, x: nat, z: nat, m: Area)
    requires w <= x && h <= z
    ensures Covers(l, w, h, m.siz, MaxArea(l, x, z, m))
    decreases l, 1
  {
    var areaX, areaZ := x + Edge(l), z + Edge(l);
    var m1 := Visit(l, areaX, areaZ, m);
    if l.Source? {
      LeafCovered(w, h, areaX, areaZ, m1);
    } else if l.Single? {
      CacheCovers(l.p, w + 2, h + 2, areaX, areaZ, m1);
    } else if l.Zoom? {
      MaxAreaGrows(l, x, z, m);
      TotalGrows(m1, MaxArea(l, x, z, m));
      CacheCovers(l.p, (w + 3) / 2, (h + 3) / 2, areaX / 2, areaZ / 2, m1);
      ZoomCovered(w, h, areaX, areaZ, m);
    } else {
      PairCovers(l, w, h, x, z, m);
    }
  }

  lemma {:induction false} PairCovers(l: Layer, w: nat, h: nat, x: nat, z: nat, m: Area)
    requires w <= x && h <= z && HasTwo(l)
    ensures Covers(l, w, h, m.siz, MaxArea(l, x, z, m))
    decreases l, 0
  {
    var areaX, areaZ := x + Edge(l), z + Edge(l);
    var m1 := Visit(l, areaX, areaZ, m);
    var m2 := MaxArea(l.p, areaX, areaZ, m1);
    var r := MaxArea(l.p2, areaX, areaZ, m2);
    MaxAreaGrows(l.p, areaX, areaZ, m1);
    MaxAreaGrows(l.p2, areaX, areaZ, m2);
    TotalGrows(m2, r);
    if l.Hills? {
      CacheCovers(l.p, w + 2, h + 2, areaX, areaZ, m1);
      CacheCovers(l.p2, w + 2, h + 2, areaX, areaZ, m2);
      AreaAdded(w + 2, h + 2, areaX, areaZ);
    } else if l.RiverMix? {
      CacheCovers(l.p, w, h, areaX, areaZ, m1);
      CacheCovers(l.p2, w, h, areaX, areaZ, m2);
      AreaAdded(w, h, areaX, areaZ);
    } else {
      CacheCovers(l.p, w + 16, h + 16, areaX, areaZ, m1);
      CacheCovers(l.p2, w, h, areaX, areaZ, m2);
      AreaAdded(w, h, areaX, areaZ);
    }
  }

  lemma AreaAdded(w: nat, h: nat, areaX: nat, areaZ: nat)
    requires w <= areaX && h <= areaZ
    ensures Times(h, w) <= Times(areaX, areaZ)
  {
    TimesMonotone(h, areaZ, w, areaX);
    TimesCommutes(areaX, areaZ);
  }

  lemma TimesCommutes(a: nat, b: nat)
    ensures Times(a, b) == Times(b, a)
  {
  }

  lemma LeafCovered(w: nat, h: nat, areaX: nat, areaZ: nat, m: Area)
    requires w <= areaX <= m.maxX && h <= areaZ <= m.maxZ
    ensures m.siz + Times(h, w) <= Total(m)
  {
    TimesMonotone(h, m.maxZ, w, m.maxX);
    TimesCommutes(m.maxX, m.maxZ);
  }

  /** A zoom needs five parent areas: four of them are the area that is added, the fifth
      is below the product of the maxima. */
  lemma ZoomCovered(w: nat, h: nat, areaX: nat, areaZ: nat, m: Area)
    requires w + 3 <= areaX && h + 3 <= areaZ
    ensures m.siz + 5 * Times((h + 3) / 2, (w + 3) / 2)
      <= Total(Area(Max(m.maxX, areaX), Max(m.maxZ, areaZ), m.siz + Times(areaX, areaZ)))
  {
    var pW, pH := (w + 3) / 2, (h + 3) / 2;
    TimesMonotone(2 * pW, areaX, 2 * pH, areaZ);
    TimesMonotone(pW, Max(m.maxX, areaX), pH, Max(m.maxZ, areaZ));
    TimesCommutes(pW, pH);
    assert Times(2 * pW, 2 * pH) == 4 * Times(pW, pH);
  }

  /** The formula covers what the recursion may touch, at every position. */
  lemma CacheSuffices(l: Layer, w: nat, h: nat)
    ensures Need(l, w, h) <= CacheSize(l, w, h)
  {
    CacheCovers(l, w, h, w, h, Area(w, h, 0));
  }

  /** `genArea` in a buffer of the computed size: the map of the tree, cell by cell. */
  method GenArea(l: Layer, a: array<int>, x: int, z: int, w: nat, h: nat)
    requires CacheSize(l, w, h) <= a.Length
    modifies a
    ensures Holds(a[..], 0, CellFn(l), x, z, w, h)
  {
    CacheSuffices(l, w, h);
    Generate(l, a, 0, x, z, w, h);
  }

  /** Two generated rectangles agree wherever they overlap. */
  lemma WindowsAgree(l: Layer, s: seq<int>, x: int, z: int, w: nat, h: nat, s': seq<int>, x': int, z': int,
                     w': nat, h': nat, cx: int, cz: int)
    requires Holds(s, 0, CellFn(l), x, z, w, h) && Holds(s', 0, CellFn(l), x', z', w', h')
    requires x <= cx < x + w && z <= cz < z + h && x' <= cx < x' + w' && z' <= cz < z' + h'
    ensures var k := (cz - z) * w + (cx - x); var k' := (cz - z') * w' + (cx - x');
      0 <= k < |s| && 0 <= k' < |s'| && s[k] == s'[k']
  {
    HoldsAt(s, 0, CellFn(l), x, z, w, h, cx - x, cz - z);
    HoldsAt(s', 0, CellFn(l), x', z', w', h', cx - x', cz - z');
  }
}
