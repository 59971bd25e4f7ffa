/** Voronoi access at scale 1 (layers.c, biomenoise.c): every block takes the biome of
    the nearest of eight jittered cells, and sampling a block of cells beforehand gives
    the same volume. */
module Voronoi {
  import opened Arith
  import opened Grid
  import opened Buffer
  import opened LayerSeeds
  import opened LayerMix

  datatype Cell = Cell(x: int, y: int, z: int)

  // -------------------------------------------------------------------- one block's cell

  function Jitter(s: nat): (j: int)
    ensures -18432 <= j < 18432
  {
    (s / 0x100_0000 % 1024 - 512) * 36
  }

  /** `getVoronoiCell`: the offset of a cell's centre. */
  function CellOffset(sha: nat, c: Cell): (o: Cell)
    ensures -18432 <= o.x < 18432 && -18432 <= o.y < 18432 && -18432 <= o.z < 18432
  {
    var s3 := StepSeed(StepSeed(StepSeed(sha, c.x), c.y), c.z);
    var s6 := StepSeed(StepSeed(StepSeed(s3, c.x), c.y), c.z);
    var s7 := StepSeed(s6, sha);
    var s8 := StepSeed(s7, sha);
    Cell(Jitter(s6), Jitter(s7), Jitter(s8))
  }

  /** Cell i of the eight around a block, whose coordinates are already less 2. */
  function Around8(x: int, y: int, z: int, i: nat): Cell {
    Cell(x / 4 + i / 4 % 2, y / 4 + i / 2 % 2, z / 4 + i % 2)
  }

  /** From the centre of cell i to the block, per axis. */
  function Gap(jitter: int, p: int, b: int): int {
    jitter + p % 4 * 10240 - 40 * 1024 * b
  }

  function Dist(sha: nat, x: int, y: int, z: int, i: nat): nat {
    var o := CellOffset(sha, Around8(x, y, z, i));
    Square(Gap(o.x, x, i / 4 % 2)) + Square(Gap(o.y, y, i / 2 % 2)) + Square(Gap(o.z, z, i % 2))
  }

  /** The first nearest among the first n cells. */
  function Best(sha: nat, x: int, y: int, z: int, n: nat): (i: nat)
    ensures n > 0 ==> i < n
    decreases n, x
  {
    if n <= 1 then 0 else
      var b := Best(sha, x, y, z, n - 1);
      if Dist(sha, x, y, z, n - 1) < Dist(sha, x, y, z, b) then n - 1 else b
  }

  lemma {:induction false} BestIsNearest(sha: nat, x: int, y: int, z: int, n: nat, k: nat)
    requires k < n
    ensures Dist(sha, x, y, z, Best(sha, x, y, z, n)) <= Dist(sha, x, y, z, k)
    ensures k < Best(sha, x, y, z, n) ==> Dist(sha, x, y, z, Best(sha, x, y, z, n)) < Dist(sha, x, y, z, k)
    decreases n
  {
    if k < n - 1 {
      BestIsNearest(sha, x, y, z, n - 1, k);
    } else if n > 1 {
      BestIsNearest(sha, x, y, z, n - 1, Best(sha, x, y, z, n - 1));
    }
  }

  /** The cell of a block. */
  function Chosen(sha: nat, x: int, y: int, z: int): Cell {
    Around8(x - 2, y - 2, z - 2, Best(sha, x - 2, y - 2, z - 2, 8))
  }

  lemma GapRange(jitter: int, p: int, b: nat)
    requires b < 2 && -18432 <= jitter < 18432
    ensures -60000 < Gap(jitter, p, b) < 60000
  {
  }

  /** Products of wrapped words are the squares, which stay far below 2^64. */
  lemma SquareWord(a: int)
    requires -60000 < a < 60000
    ensures U64(a * U64(a)) == Square(a) < 3600000000
  {
    ModMulCong(a, a, U64(a), a, TWO64);
    if a >= 0 { MulMonotone(a, 60000, a, 60000); } else { MulMonotone(-a, 60000, -a, 60000); }
  }

  lemma SumOfWords(a: int, b: int, c: int)
    requires -60000 < a < 60000 && -60000 < b < 60000 && -60000 < c < 60000
    ensures U64(a * U64(a) + b * U64(b) + c * U64(c)) == Square(a) + Square(b) + Square(c) < TWO64 - 1
  {
    SquareWord(a);
    SquareWord(b);
    SquareWord(c);
    SumOfParts(a * U64(a), b * U64(b), c * U64(c), Square(a), Square(b), Square(c));
  }

  lemma SumOfParts(a: int, b: int, c: int, p: nat, q: nat, r: nat)
    requires U64(a) == p < 3600000000 && U64(b) == q < 3600000000 && U64(c) == r < 3600000000
    ensures U64(a + b + c) == p + q + r < TWO64 - 1
  {
    ModAddCong(a, p, b, q, TWO64);
    ModAddCong(a + b, p + q, c, r, TWO64);
  }

  /** Distance of cell i on 64-bit words. */
  method DistWord(sha: nat, x: int, y: int, z: int, i: nat) returns (d: nat)
    ensures d == Dist(sha, x, y, z, i) < TWO64 - 1
  {
    var o := CellOffset(sha, Around8(x, y, z, i));
    var rx, ry, rz := Gap(o.x, x, i / 4 % 2), Gap(o.y, y, i / 2 % 2), Gap(o.z, z, i % 2);
    GapRange(o.x, x, i / 4 % 2);
    GapRange(o.y, y, i / 2 % 2);
    GapRange(o.z, z, i % 2);
    SumOfWords(rx, ry, rz);
    d := U64(rx * U64(rx) + ry * U64(ry) + rz * U64(rz));
  }

  /** `voronoiAccess3D`: the loop over the eight cells. */
  method VoronoiAccess3D(sha: nat, x: int, y: int, z: int) returns (c: Cell)
    ensures c == Chosen(sha, x, y, z)
  {
    var px, py, pz := x - 2, y - 2, z - 2;
    var dmin := TWO64 - 1;
    c := Cell(0, 0, 0);
    var i := 0;
    while i < 8
      invariant i <= 8
      invariant i == 0 ==> dmin == TWO64 - 1
      invariant i > 0 ==> dmin == Dist(sha, px, py, pz, Best(sha, px, py, pz, i))
      invariant i > 0 ==> c == Around8(px, py, pz, Best(sha, px, py, pz, i))
    {
      var d := DistWord(sha, px, py, pz, i);
      if d < dmin {
        dmin, c := d, Around8(px, py, pz, i);
      }
      i := i + 1;
    }
  }

  /** What the access means: of the eight cells around the block no one is nearer. */
  lemma ChosenIsNearest(sha: nat, x: int, y: int, z: int, k: nat)
    requires k < 8
    ensures var b := Best(sha, x - 2, y - 2, z - 2, 8);
      && b < 8 && Chosen(sha, x, y, z) == Around8(x - 2, y - 2, z - 2, b)
      && Dist(sha, x - 2, y - 2, z - 2, b) <= Dist(sha, x - 2, y - 2, z - 2, k)
      && (k < b ==> Dist(sha, x - 2, y - 2, z - 2, b) < Dist(sha, x - 2, y - 2, z - 2, k))
  {
    BestIsNearest(sha, x - 2, y - 2, z - 2, 8, k);
  }

  // ------------------------------------------------------------------------ source range

  /** Position and size of a volume. */
  datatype Range = Range(x: int, y: int, z: int, sx: nat, sy: nat, sz: nat)

  function SrcStart(p: int): int {
    (p - 2) / 4
  }

  function SrcSize(p: int, n: nat): (s: nat)
    ensures 2 <= s <= (n + 3) / 4 + 2
  {
    (p - 2 + n) / 4 - (p - 2) / 4 + 2
  }

  /** `getVoronoiSrcRange`. */
  function SrcRange(r: Range): Range {
    Range(SrcStart(r.x), if r.sy < 1 then 0 else SrcStart(r.y), SrcStart(r.z),
          SrcSize(r.x, r.sx), if r.sy < 1 then 0 else SrcSize(r.y, r.sy), SrcSize(r.z, r.sz))
  }

  predicate Within(r: Range, c: Cell) {
    r.x <= c.x < r.x + r.sx && r.y <= c.y < r.y + r.sy && r.z <= c.z < r.z + r.sz
  }

  /** Every cell that a block of the volume can choose lies in the source range. */
  lemma ChosenInSource(sha: nat, r: Range, x: int, y: int, z: int)
    requires Within(r, Cell(x, y, z))
    ensures Within(SrcRange(r), Chosen(sha, x, y, z))
  {
    var b := Best(sha, x - 2, y - 2, z - 2, 8);
    AxisInSource(r.x, r.sx, x, b / 4 % 2);
    AxisInSource(r.y, r.sy, y, b / 2 % 2);
    AxisInSource(r.z, r.sz, z, b % 2);
  }

  lemma AxisInSource(p: int, n: nat, q: int, bit: nat)
    requires p <= q < p + n && bit < 2
    ensures SrcStart(p) <= (q - 2) / 4 + bit < SrcStart(p) + SrcSize(p, n)
  {
  }

  // ----------------------------------------------------------------------------- volumes

  /** One horizontal slab of a map of blocks. */
  function Slab(f: (int, int, int) -> int, y: int): (int, int) -> int {
    (x: int, z: int) => f(x, y, z)
  }

  /** The first n slabs of a volume, one after the other. */
  function Volume(f: (int, int, int) -> int, r: Range, n: nat): seq<int> {
    if n == 0 then [] else Volume(f, r, n - 1) + Rows(Slab(f, r.y + (n - 1)), r.x, r.z, r.sx, r.sz)
  }

  lemma {:induction false} VolumeLength(f: (int, int, int) -> int, r: Range, n: nat)
    ensures |Volume(f, r, n)| == n * Times(r.sz, r.sx)
  {
    if n > 0 {
      VolumeLength(f, r, n - 1);
      RowsLength(Slab(f, r.y + (n - 1)), r.x, r.z, r.sx, r.sz);
      Distribute(n - 1, 1, Times(r.sz, r.sx));
    }
  }

  /** The entry at (i, j) of slab k is the map's value at that block. */
  lemma {:induction false} VolumeAt(f: (int, int, int) -> int, r: Range, n: nat, i: nat, j: nat, k: nat)
    requires i < r.sx && j < r.sz && k < n
    ensures var p := k * Times(r.sz, r.sx) + (j * r.sx + i);
      0 <= p < |Volume(f, r, n)| && Volume(f, r, n)[p] == f(r.x + i, r.y + k, r.z + j)
  {
    VolumeLength(f, r, n - 1);
    RowsAt(Slab(f, r.y + (n - 1)), r.x, r.z, r.sx, r.sz, i, j);
    MulMonotone(0, k, 0, Times(r.sz, r.sx));
    if k < n - 1 { VolumeAt(f, r, n - 1, i, j, k); }
  }

  ghost predicate HoldsVolume(s: seq<int>, o: nat, f: (int, int, int) -> int, r: Range, n: nat) {
    o + |Volume(f, r, n)| <= |s| && s[o..o + |Volume(f, r, n)|] == Volume(f, r, n)
  }

  lemma SlabAdded(s: seq<int>, s': seq<int>, o: nat, f: (int, int, int) -> int, r: Range, n: nat, o2: nat)
    requires HoldsVolume(s, o, f, r, n) && o2 == o + |Volume(f, r, n)| && |s'| == |s| && s'[..o2] == s[..o2]
    requires Holds(s', o2, Slab(f, r.y + n), r.x, r.z, r.sx, r.sz)
    ensures HoldsVolume(s', o, f, r, n + 1)
  {
    var t, u := Volume(f, r, n), Rows(Slab(f, r.y + n), r.x, r.z, r.sx, r.sz);
    assert s'[o..o2] == s'[..o2][o..o2];
    assert s[o..o2] == s[..o2][o..o2];
    assert s'[o..o2 + |u|] == s'[o..o2] + s'[o2..o2 + |u|];
  }

  /** `genBiomeNoise3D` without hints: samples every cell of a volume. */
  method SampleVolume(f: (int, int, int) -> int, a: array<int>, o: nat, r: Range)
    requires o + r.sy * Times(r.sz, r.sx) <= a.Length
    modifies a
    ensures HoldsVolume(a[..], o, f, r, r.sy) && a[..o] == old(a[..o])
  {
    var at := o;
    var k: nat := 0;
    while k < r.sy
      invariant k <= r.sy && HoldsVolume(a[..], o, f, r, k) && at == o + |Volume(f, r, k)| && a[..o] == old(a[..o])
    {
      SlabFits(f, r, k);
      ghost var s := a[..];
      Fill(Slab(f, r.y + k), a, at, r.x, r.z, r.sx, r.sz);
      SlabAdded(s, a[..], o, f, r, k, at);
      ShorterPrefix(s, a[..], o, at);
      at := at + Times(r.sz, r.sx);
      k := k + 1;
    }
  }

  lemma SlabFits(f: (int, int, int) -> int, r: Range, k: nat)
    requires k < r.sy
    ensures |Volume(f, r, k)| + Times(r.sz, r.sx) <= r.sy * Times(r.sz, r.sx)
    ensures |Volume(f, r, k + 1)| == |Volume(f, r, k)| + Times(r.sz, r.sx)
  {
    VolumeLength(f, r, k);
    VolumeLength(f, r, k + 1);
    MulMonotone(k + 1, r.sy, Times(r.sz, r.sx), Times(r.sz, r.sx));
    Distribute(k, 1, Times(r.sz, r.sx));
  }

  // ------------------------------------------------------------------- buffered sampling

  /** The map at scale 1: every block has the sample of its cell. */
  function Zoomed(f: (int, int, int) -> int, sha: nat): (int, int, int) -> int {
    (x: int, y: int, z: int) => var c := Chosen(sha, x, y, z); f(c.x, c.y, c.z)
  }

  /** Looks up a cell in the sampled source volume. */
  method LookUp(a: array<int>, src: nat, s: Range, ghost f: (int, int, int) -> int, c: Cell) returns (v: int)
    requires HoldsVolume(a[..], src, f, s, s.sy) && Within(s, c)
    ensures v == f(c.x, c.y, c.z)
  {
    var x4, y4, z4 := c.x - s.x, c.y - s.y, c.z - s.z;
    VolumeAt(f, s, s.sy, x4, z4, y4);
    ghost var p := y4 * Times(s.sz, s.sx) + (z4 * s.sx + x4);
    assert a[..][src..src + |Volume(f, s, s.sy)|][p] == a[src + p];
    v := a[src + (y4 * Times(s.sz, s.sx) + (z4 * s.sx + x4))];
  }

  /** The source volume behind the cells being written stays as it is. */
  lemma SourceKept(b: seq<int>, s0: seq<int>, at: nat, g: (int, int) -> int, x: int, z: int, w: nat, j: nat, i: nat,
      src: nat, f: (int, int, int) -> int, s: Range)
    requires Replaced(b, s0, at, g, x, z, w, j, i) && at + j * w + i <= src && HoldsVolume(s0, src, f, s, s.sy)
    ensures HoldsVolume(b, src, f, s, s.sy) && |b| == |s0|
  {
    FilledLength(g, x, z, w, j, i);
    SpliceEnds(s0, at, Filled(g, x, z, w, j, i));
    SharedTail(s0, b, at + (j * w + i), src, src + |Volume(f, s, s.sy)|);
  }

  /** Memory while slab y of r is filled at `at` from the source at src. */
  ghost predicate Looking(b: seq<int>, s0: seq<int>, at: nat, g: (int, int, int) -> int, y: int, r: Range, j: nat,
                          i: nat, src: nat, f: (int, int, int) -> int, s: Range)
  {
    && Replaced(b, s0, at, Slab(g, y), r.x, r.z, r.sx, j, i)
    && HoldsVolume(s0, src, f, s, s.sy) && at + Times(r.sz, r.sx) <= src <= |s0|
  }

  /** The value of block (i, j) of the slab, looked up in the source. */
  method BufferedValue(ghost f: (int, int, int) -> int, sha: nat, a: array<int>, ghost s0: seq<int>, ghost at: nat,
                       y: int, r: Range, j: nat, i: nat, src: nat, s: Range) returns (v: int)
    requires Looking(a[..], s0, at, Zoomed(f, sha), y, r, j, i, src, f, s) && i < r.sx && j < r.sz
    requires s == SrcRange(r) && r.y <= y < r.y + r.sy
    ensures v == Zoomed(f, sha)(r.x + i, y, r.z + j)
  {
    CellInside(i, j, r.sx, r.sz);
    SourceKept(a[..], s0, at, Slab(Zoomed(f, sha), y), r.x, r.z, r.sx, j, i, src, f, s);
    v := BlockValue(f, sha, a, r.x + i, y, r.z + j, r, src, s);
  }

  method BlockValue(ghost f: (int, int, int) -> int, sha: nat, a: array<int>, x: int, y: int, z: int, ghost r: Range,
                    src: nat, s: Range)
    returns (v: int)
    requires HoldsVolume(a[..], src, f, s, s.sy) && s == SrcRange(r) && Within(r, Cell(x, y, z))
    ensures v == Zoomed(f, sha)(x, y, z)
  {
    var c := VoronoiAccess3D(sha, x, y, z);
    ChosenInSource(sha, r, x, y, z);
    v := LookUp(a, src, s, f, c);
  }

  method PutInSlab(ghost g: (int, int, int) -> int, a: array<int>, ghost s0: seq<int>, at: nat, ghost y: int, r: Range,
      j: nat, i: nat, v: int, ghost src: nat, ghost f: (int, int, int) -> int, ghost s: Range)
    requires Looking(a[..], s0, at, g, y, r, j, i, src, f, s) && i < r.sx && j < r.sz && v == g(r.x + i, y, r.z + j)
    modifies a
    ensures Looking(a[..], s0, at, g, y, r, j, i + 1, src, f, s)
  {
    CellInside(i, j, r.sx, r.sz);
    FilledLength(Slab(g, y), r.x, r.z, r.sx, j, i);
    PutNext(a, at + j * r.sx + i, v, s0, at, Slab(g, y), r.x, r.z, r.sx, j, i);
  }

  method BufferedRow(ghost f: (int, int, int) -> int, sha: nat, a: array<int>, ghost s0: seq<int>, at: nat, y: int,
                     r: Range, j: nat, src: nat, s: Range)
    requires Looking(a[..], s0, at, Zoomed(f, sha), y, r, j, 0, src, f, s) && j < r.sz
    requires s == SrcRange(r) && r.y <= y < r.y + r.sy
    modifies a
    ensures Looking(a[..], s0, at, Zoomed(f, sha), y, r, j, r.sx, src, f, s)
  {
    var i := 0;
    while i < r.sx
      invariant i <= r.sx && Looking(a[..], s0, at, Zoomed(f, sha), y, r, j, i, src, f, s)
    {
      var v := BufferedValue(f, sha, a, s0, at, y, r, j, i, src, s);
      PutInSlab(Zoomed(f, sha), a, s0, at, y, r, j, i, v, src, f, s);
      i := i + 1;
    }
  }

  method BufferedSlab(ghost f: (int, int, int) -> int, sha: nat, a: array<int>, at: nat, y: int, r: Range, src: nat,
                      s: Range)
    requires HoldsVolume(a[..], src, f, s, s.sy) && at + Times(r.sz, r.sx) <= src <= a.Length
    requires s == SrcRange(r) && r.y <= y < r.y + r.sy
    modifies a
    ensures Holds(a[..], at, Slab(Zoomed(f, sha), y), r.x, r.z, r.sx, r.sz) && a[..at] == old(a[..at])
    ensures HoldsVolume(a[..], src, f, s, s.sy)
  {
    ghost var s0, g := a[..], Slab(Zoomed(f, sha), y);
    StartReplacing(s0, at, g, r.x, r.z, r.sx);
    var j := 0;
    while j < r.sz
      invariant j <= r.sz && Looking(a[..], s0, at, Zoomed(f, sha), y, r, j, 0, src, f, s)
    {
      BufferedRow(f, sha, a, s0, at, y, r, j, src, s);
      NextRowReplaced(a[..], s0, at, g, r.x, r.z, r.sx, j);
      j := j + 1;
    }
    SourceKept(a[..], s0, at, g, r.x, r.z, r.sx, r.sz, 0, src, f, s);
    AllReplaced(a[..], s0, at, g, r.x, r.z, r.sx, r.sz);
  }

  /** The loops at scale 1 that read the sampled source. */
  method FillBuffered(ghost f: (int, int, int) -> int, sha: nat, a: array<int>, r: Range, src: nat)
    requires HoldsVolume(a[..], src, f, SrcRange(r), SrcRange(r).sy) && src == r.sy * Times(r.sz, r.sx)
    modifies a
    ensures HoldsVolume(a[..], 0, Zoomed(f, sha), r, r.sy)
  {
    var s := SrcRange(r);
    ghost var g := Zoomed(f, sha);
    var at: nat := 0;
    var k: nat := 0;
    while k < r.sy
      invariant k <= r.sy && HoldsVolume(a[..], 0, g, r, k) && at == |Volume(g, r, k)|
      invariant HoldsVolume(a[..], src, f, s, s.sy)
    {
      SlabFits(g, r, k);
      ghost var s0 := a[..];
      BufferedSlab(f, sha, a, at, r.y + k, r, src, s);
      SlabAdded(s0, a[..], 0, g, r, k, at);
      at := at + Times(r.sz, r.sx);
      k := k + 1;
    }
  }

  /** `getMinCacheSize` at scale 1 where a Voronoi source is copied. */
  function MinCacheSize(sx: nat, sy: nat, sz: nat): nat {
    var height := if sy == 0 then 1 else sy;
    Times(height, Times(sz, sx)) + Times((height + 3) / 4 + 2, Times((sz + 3) / 4 + 2, (sx + 3) / 4 + 2))
  }

  /** The copy of the source fits behind the output. */
  lemma SourceFits(r: Range)
    requires r.sy > 0
    ensures var s := SrcRange(r); r.sy * Times(r.sz, r.sx) + s.sy * Times(s.sz, s.sx) <= MinCacheSize(r.sx, r.sy, r.sz)
  {
    var s := SrcRange(r);
    MulMonotone(s.sz, (r.sz + 3) / 4 + 2, s.sx, (r.sx + 3) / 4 + 2);
    MulMonotone(s.sy, (r.sy + 3) / 4 + 2, Times(s.sz, s.sx), Times((r.sz + 3) / 4 + 2, (r.sx + 3) / 4 + 2));
  }

  /** `genBiomeNoiseScaled` at scale 1: with the source sampled beforehand, or block by
      block for a single block, the volume holds the sample of every block's cell. */
  method GenBiomeNoiseScaled(f: (int, int, int) -> int, sha: nat, a: array<int>, r0: Range)
    requires MinCacheSize(r0.sx, r0.sy, r0.sz) <= a.Length
    modifies a
    ensures var r := if r0.sy == 0 then r0.(sy := 1) else r0;
      HoldsVolume(a[..], 0, Zoomed(f, sha), r, r.sy)
  {
    var r := if r0.sy == 0 then r0.(sy := 1) else r0;
    var siz := r.sy * Times(r.sz, r.sx);
    SourceFits(r);
    if siz > 1 {
      SampleVolume(f, a, siz, SrcRange(r));
      FillBuffered(f, sha, a, r, siz);
    } else {
      SampleVolume(Zoomed(f, sha), a, 0, r);
    }
  }
}
