/** Layers without a parent, and the layers that mix two parents cell by cell
    (layers.c). */
module LayerMix {
  import opened Arith
  import opened Versions
  import opened Grid
  import opened Buffer
  import opened LayerRules

  // ------------------------------------------------------------------ without a parent

  /** The double loop that computes every cell from its position. */
  method Fill(f: (int, int) -> int, a: array<int>, o: nat, x: int, z: int, w: nat, h: nat)
    requires o + h * w <= a.Length
    modifies a
    ensures Holds(a[..], o, f, x, z, w, h) && a[..o] == old(a[..o])
  {
    ghost var s := a[..];
    var j := 0;
    MulMonotone(0, h, 0, w);
    StartReplacing(s, o, f, x, z, w);
    while j < h
      invariant j <= h && Replaced(a[..], s, o, f, x, z, w, j, 0)
    {
      FillRow(f, a, o, x, z, w, h, j, s);
      NextRowReplaced(a[..], s, o, f, x, z, w, j);
      j := j + 1;
    }
    AllReplaced(a[..], s, o, f, x, z, w, h);
  }

  method FillRow(f: (int, int) -> int, a: array<int>, o: nat, x: int, z: int, w: nat, ghost h: nat, j: nat,
                 ghost s: seq<int>)
    requires o + h * w <= a.Length && j < h && Replaced(a[..], s, o, f, x, z, w, j, 0)
    modifies a
    ensures Replaced(a[..], s, o, f, x, z, w, j, w)
  {
    var i := 0;
    while i < w
      invariant i <= w && Replaced(a[..], s, o, f, x, z, w, j, i)
    {
      CellInside(i, j, w, h);
      PutNext(a, o + j * w + i, f(x + i, z + j), s, o, f, x, z, w, j, i);
      i := i + 1;
    }
  }

  lemma CellInside(i: nat, j: nat, w: nat, h: nat)
    requires i < w && j < h
    ensures 0 <= j * w && j * w + i < h * w
  {
    MulMonotone(j + 1, h, w, w);
    Distribute(j, 1, w);
  }

  /** The continent map without its forced origin. */
  function Scattered(s: Seeds): (int, int) -> int {
    (x: int, z: int) => if ContinentDraw(s, x, z) then 1 else 0
  }

  function ContinentFn(s: Seeds): (int, int) -> int {
    (x: int, z: int) => ContinentCell(s, x, z)
  }

  /** Two maps that differ at most in one cell fill a rectangle alike but for it. */
  lemma RowsDifferOnce(f: (int, int) -> int, f': (int, int) -> int, x: int, z: int, w: nat, h: nat,
                       i0: nat, j0: nat, k0: nat)
    requires i0 < w && j0 < h && k0 == j0 * w + i0
    requires forall a: int, b: int :: (a, b) != (x + i0, z + j0) ==> f'(a, b) == f(a, b)
    ensures k0 < |Rows(f, x, z, w, h)| && Rows(f, x, z, w, h)[k0 := f'(x + i0, z + j0)] == Rows(f', x, z, w, h)
  {
    RowsAt(f, x, z, w, h, i0, j0);
    RowsLength(f', x, z, w, h);
    var s, s' := Rows(f, x, z, w, h)[k0 := f'(x + i0, z + j0)], Rows(f', x, z, w, h);
    forall k: nat | k < h * w ensures s[k] == s'[k] {
      RowsAtIndex(f, x, z, w, h, k);
      RowsAtIndex(f', x, z, w, h, k);
      RowMajor(i0, j0, w);
      if k != k0 { IndexApart(k, i0, j0, w); }
    }
  }

  /** Another index is another cell. */
  lemma IndexApart(k: nat, i0: nat, j0: nat, w: nat)
    requires i0 < w && k != j0 * w + i0
    ensures k % w != i0 || k / w != j0
  {
    assert k == w * (k / w) + k % w;
  }

  lemma RowsSame(f: (int, int) -> int, f': (int, int) -> int, x: int, z: int, w: nat, h: nat)
    requires forall a: int, b: int | x <= a < x + w && z <= b < z + h :: f'(a, b) == f(a, b)
    ensures Rows(f, x, z, w, h) == Rows(f', x, z, w, h)
  {
    RowsLength(f, x, z, w, h);
    RowsLength(f', x, z, w, h);
    var s, s' := Rows(f, x, z, w, h), Rows(f', x, z, w, h);
    forall k: nat | k < h * w ensures s[k] == s'[k] {
      RowsAtIndex(f, x, z, w, h, k);
      RowsAtIndex(f', x, z, w, h, k);
      assert k / w < h by { QuotientBound(h, w, k); }
    }
  }

  /** A changed cell inside a rectangle in a buffer. */
  lemma SliceUpdate(s: seq<int>, o: nat, n: nat, k: nat, v: int)
    requires o + n <= |s| && k < n
    ensures s[o + k := v][o..o + n] == s[o..o + n][k := v] && s[o + k := v][..o] == s[..o]
  {
  }

  /** f' is f but for the origin, where it is 1. */
  ghost predicate ForcesOrigin(f: (int, int) -> int, f': (int, int) -> int) {
    f'(0, 0) == 1 && forall a: int, b: int :: (a, b) != (0, 0) ==> f'(a, b) == f(a, b)
  }

  lemma ContinentForcesOrigin(c: Seeds)
    ensures ForcesOrigin(Scattered(c), ContinentFn(c))
  {
  }

  /** `mapContinent`: the origin is written afterwards if it lies in the rectangle. */
  method MapContinent(f: (int, int) -> int, ghost f': (int, int) -> int, a: array<int>, o: nat, x: int, z: int,
                      w: nat, h: nat)
    requires o + h * w <= a.Length && ForcesOrigin(f, f')
    modifies a
    ensures Holds(a[..], o, f', x, z, w, h) && a[..o] == old(a[..o])
  {
    Fill(f, a, o, x, z, w, h);
    if x > 0 - w && x <= 0 && z > 0 - h && z <= 0 {
      WriteOrigin(f, f', a, o, x, z, w, h, 0 - x, 0 - z);
    } else {
      RowsSame(f, f', x, z, w, h);
    }
  }

  method WriteOrigin(ghost f: (int, int) -> int, ghost f': (int, int) -> int, a: array<int>, o: nat, ghost x: int,
                     ghost z: int, w: nat, ghost h: nat, i: nat, j: nat)
    requires Holds(a[..], o, f, x, z, w, h) && ForcesOrigin(f, f') && i < w && j < h && x + i == 0 && z + j == 0
    modifies a
    ensures Holds(a[..], o, f', x, z, w, h) && a[..o] == old(a[..o])
  {
    var k := j * w + i;
    RowsLength(f, x, z, w, h);
    RowsLength(f', x, z, w, h);
    CellInside(i, j, w, h);
    RowsDifferOnce(f, f', x, z, w, h, i, j, k);
    SliceUpdate(a[..], o, h * w, k, 1);
    a[o + k] := 1;
  }

  // ------------------------------------------------------------------- rivers into biomes

  /** Cell k of a rectangle in a buffer, counted row by row. */
  lemma HoldsAtIndex(s: seq<int>, o: nat, f: (int, int) -> int, x: int, z: int, w: nat, h: nat, k: nat)
    requires Holds(s, o, f, x, z, w, h) && k < h * w
    ensures w > 0 && o + k < |s| && s[o + k] == f(x + k % w, z + k / w)
  {
    RowsAtIndex(f, x, z, w, h, k);
    assert s[o..o + |Rows(f, x, z, w, h)|][k] == s[o + k];
  }

  /** b is s with the first k cells of the rows written at o. */
  ghost predicate WrittenTo(b: seq<int>, s: seq<int>, o: nat, rows: seq<int>, k: nat) {
    k <= |rows| && o + |rows| <= |s| && b == Splice(s, o, rows[..k])
  }

  lemma WrittenStart(s: seq<int>, o: nat, rows: seq<int>)
    requires o + |rows| <= |s|
    ensures WrittenTo(s, s, o, rows, 0)
  {
    assert rows[..0] == [];
    SpliceNothing(s, o);
  }

  lemma WrittenEnd(b: seq<int>, s: seq<int>, o: nat, rows: seq<int>)
    requires WrittenTo(b, s, o, rows, |rows|)
    ensures |b| == |s| && b[o..o + |rows|] == rows && b[..o] == s[..o]
  {
    assert rows[..|rows|] == rows;
    SpliceEnds(s, o, rows);
  }

  lemma WrittenNext(b: seq<int>, s: seq<int>, o: nat, rows: seq<int>, k: nat)
    requires WrittenTo(b, s, o, rows, k) && k < |rows|
    ensures WrittenTo(b[o + k := rows[k]], s, o, rows, k + 1)
  {
    SpliceNext(s, o, rows[..k], rows[k]);
    assert rows[..k] + [rows[k]] == rows[..k + 1];
  }

  /** `mapRiverMix` after both parents were generated, one behind the other. */
  method MapRiverMix(g: (int, int) -> int, ghost f: (int, int) -> int, ghost f2: (int, int) -> int,
      a: array<int>, o: nat, ghost x: int, ghost z: int, w: nat, h: nat)
    requires Holds(a[..], o, f, x, z, w, h) && Holds(a[..], o + Times(h, w), f2, x, z, w, h)
    modifies a
    ensures Holds(a[..], o, MixFn(g, f, f2), x, z, w, h) && a[..o] == old(a[..o])
  {
    ghost var s := a[..];
    RowsLength(MixFn(g, f, f2), x, z, w, h);
    MixCells(g, f, f2, a, o, x, z, w, h, Times(h, w));
    WrittenEnd(a[..], s, o, Rows(MixFn(g, f, f2), x, z, w, h));
  }

  /** The single loop over both rectangles. */
  method MixCells(g: (int, int) -> int, ghost f: (int, int) -> int, ghost f2: (int, int) -> int,
      a: array<int>, o: nat, ghost x: int, ghost z: int, ghost w: nat, ghost h: nat, n: nat)
    requires Holds(a[..], o, f, x, z, w, h) && Holds(a[..], o + n, f2, x, z, w, h) && n == h * w
    modifies a
    ensures WrittenTo(a[..], old(a[..]), o, Rows(MixFn(g, f, f2), x, z, w, h), n)
  {
    ghost var s, rows := a[..], Rows(MixFn(g, f, f2), x, z, w, h);
    RowsLength(MixFn(g, f, f2), x, z, w, h);
    RowsLength(f2, x, z, w, h);
    WrittenStart(s, o, rows);
    var k: nat := 0;
    while k < n
      invariant k <= n && WrittenTo(a[..], s, o, rows, k)
    {
      MixedCell(s, a[..], o, g, f, f2, x, z, w, h, k, n, rows);
      WrittenNext(a[..], s, o, rows, k);
      a[o + k] := g(a[o + k], a[o + n + k]);
      k := k + 1;
    }
  }

  lemma MixedCell(s: seq<int>, b: seq<int>, o: nat, g: (int, int) -> int, f: (int, int) -> int, f2: (int, int) -> int,
                  x: int, z: int, w: nat, h: nat, k: nat, n: nat, rows: seq<int>)
    requires Holds(s, o, f, x, z, w, h) && Holds(s, o + n, f2, x, z, w, h) && n == h * w && k < n
    requires rows == Rows(MixFn(g, f, f2), x, z, w, h) && WrittenTo(b, s, o, rows, k)
    ensures o + n + k < |b| && k < |rows| && g(b[o + k], b[o + n + k]) == rows[k]
  {
    HoldsAtIndex(s, o, f, x, z, w, h, k);
    HoldsAtIndex(s, o + n, f2, x, z, w, h, k);
    MixedAt(g, f, f2, x, z, w, h, k);
    NotYetWritten(b, s, o, rows, k, o + k);
    NotYetWritten(b, s, o, rows, k, o + n + k);
  }

  lemma MixedAt(g: (int, int) -> int, f: (int, int) -> int, f2: (int, int) -> int, x: int, z: int, w: nat, h: nat,
                k: nat)
    requires k < h * w
    ensures w > 0 && k < |Rows(MixFn(g, f, f2), x, z, w, h)|
    ensures Rows(MixFn(g, f, f2), x, z, w, h)[k] == g(f(x + k % w, z + k / w), f2(x + k % w, z + k / w))
  {
    RowsAtIndex(MixFn(g, f, f2), x, z, w, h, k);
  }

  lemma NotYetWritten(b: seq<int>, s: seq<int>, o: nat, rows: seq<int>, k: nat, p: nat)
    requires WrittenTo(b, s, o, rows, k) && o + k <= p < |s|
    ensures |b| == |s| && b[p] == s[p]
  {
    SpliceKeeps(s, o, rows[..k], p);
  }

  // ----------------------------------------------------------------- oceans into the land

  /** Border of the land rectangle relative to the ocean rectangle. */
  datatype Border = Border(lx0: int, lx1: int, lz0: int, lz1: int)

  /** The cell's land reads stay inside the border if its ocean is tempered. */
  predicate Covered(b: Border, ocean: int, i: int, j: int) {
    Tempered(ocean) != 0 ==> b.lx0 <= i - 8 && i + 9 <= b.lx1 && b.lz0 <= j - 8 && j + 9 <= b.lz1
  }

  ghost predicate CellCovered(b: Border, ocean: (int, int) -> int, x: int, z: int, i: nat, j: nat) {
    Covered(b, ocean(x + i, z + j), i, j)
  }

  predicate Sound(b: Border, w: nat, h: nat) {
    -8 <= b.lx0 <= 0 && w <= b.lx1 <= w + 8 && -8 <= b.lz0 <= 0 && h <= b.lz1 <= h + 8
  }

  /** All cells in the rows before j, and those before column i in row j, are covered. */
  ghost predicate CoveredTo(b: Border, ocean: (int, int) -> int, x: int, z: int, w: nat, h: nat, j: nat, i: nat) {
    && Sound(b, w, h)
    && forall p: nat, q: nat | p < w && q < h && (q < j || (q == j && p < i)) :: CellCovered(b, ocean, x, z, p, q)
  }

  /** A border wide enough for one more cell; interior cells are skipped. */
  function Widened(b: Border, ocean: int, w: nat, h: nat, i: nat, j: nat): Border {
    if (j - 8 > 0 && j + 9 < h && i - 8 > 0 && i + 9 < w) || (ocean != WARM_OCEAN && ocean != FROZEN_OCEAN) then b
    else Border(if i - 8 < b.lx0 then i - 8 else b.lx0, if i + 9 > b.lx1 then i + 9 else b.lx1,
                if j - 8 < b.lz0 then j - 8 else b.lz0, if j + 9 > b.lz1 then j + 9 else b.lz1)
  }

  lemma WidenedCovers(b: Border, ocean: (int, int) -> int, x: int, z: int, w: nat, h: nat, j: nat, i: nat)
    requires CoveredTo(b, ocean, x, z, w, h, j, i) && i < w && j < h
    ensures CoveredTo(Widened(b, ocean(x + i, z + j), w, h, i, j), ocean, x, z, w, h, j, i + 1)
  {
    var b' := Widened(b, ocean(x + i, z + j), w, h, i, j);
    assert CellCovered(b', ocean, x, z, i, j);
    forall p: nat, q: nat | p < w && q < h && (q < j || (q == j && p < i + 1))
      ensures CellCovered(b', ocean, x, z, p, q)
    {
      if q < j || p < i { assert CellCovered(b, ocean, x, z, p, q); }
    }
  }

  /** The first double loop of `mapOceanMix`: how much land is needed around. */
  method FindBorder(ghost ocean: (int, int) -> int, a: array<int>, o: nat, ghost x: int, ghost z: int, w: nat, h: nat)
    returns (b: Border)
    requires Holds(a[..], o, ocean, x, z, w, h)
    ensures CoveredTo(b, ocean, x, z, w, h, h, 0)
  {
    b := Border(0, w, 0, h);
    var j := 0;
    while j < h
      invariant j <= h && CoveredTo(b, ocean, x, z, w, h, j, 0)
    {
      var i := 0;
      while i < w
        invariant i <= w && CoveredTo(b, ocean, x, z, w, h, j, i)
      {
        HoldsAt(a[..], o, ocean, x, z, w, h, i, j);
        WidenedCovers(b, ocean, x, z, w, h, j, i);
        b := Widened(b, a[o + j * w + i], w, h, i, j);
        i := i + 1;
      }
      j := j + 1;
    }
  }

  /** What the second phase starts from, for the proof only: the memory s with the ocean
      map of (x, z, w, h) at o, and the land map of the bordered rectangle behind it at o2. */
  datatype Mix = Mix(s: seq<int>, o: nat, o2: nat, b: Border, land: (int, int) -> int, ocean: (int, int) -> int,
                     x: int, z: int, w: nat, h: nat)

  ghost predicate Mixing(m: Mix) {
    && Holds(m.s, m.o, m.ocean, m.x, m.z, m.w, m.h) && m.o2 == m.o + m.h * m.w
    && CoveredTo(m.b, m.ocean, m.x, m.z, m.w, m.h, m.h, 0)
    && Holds(m.s, m.o2, m.land, m.x + m.b.lx0, m.z + m.b.lz0, m.b.lx1 - m.b.lx0, m.b.lz1 - m.b.lz0)
  }

  /** The first j rows and i cells of row j are mixed. */
  ghost predicate Mixed(c: seq<int>, m: Mix, j: nat, i: nat) {
    Mixing(m) && Replaced(c, m.s, m.o, OceanFn(m.land, m.ocean), m.x, m.z, m.w, j, i)
  }

  /** The numbers that the loops compute with are those of the rectangles. */
  predicate Placed(m: Mix, o: nat, o2: nat, b: Border, w: nat) {
    m.o == o && m.o2 == o2 && m.b == b && m.w == w
  }

  /** Reads the land under position (p, q) of the ocean rectangle, which may lie outside
      it but not outside the border. */
  method ReadLand(a: array<int>, ghost m: Mix, o2: nat, b: Border, ghost i: nat, ghost j: nat, p: int, q: int)
    returns (v: int)
    requires m.o2 == o2 && m.b == b && i < m.w && j < m.h && Mixed(a[..], m, j, i)
    requires b.lx0 <= p < b.lx1 && b.lz0 <= q < b.lz1
    ensures v == m.land(m.x + p, m.z + q)
  {
    LandThere(a[..], m, i, j, p, q);
    v := a[o2 + (q - b.lz0) * (b.lx1 - b.lx0) + (p - b.lx0)];
  }

  lemma LandThere(c: seq<int>, m: Mix, i: nat, j: nat, p: int, q: int)
    requires i < m.w && j < m.h && Mixed(c, m, j, i) && m.b.lx0 <= p < m.b.lx1 && m.b.lz0 <= q < m.b.lz1
    ensures var k := m.o2 + (q - m.b.lz0) * (m.b.lx1 - m.b.lx0) + (p - m.b.lx0);
      0 <= k < |c| && c[k] == m.land(m.x + p, m.z + q)
  {
    var b := m.b;
    CellInside(i, j, m.w, m.h);
    Beyond(m.s, c, m.o, OceanFn(m.land, m.ocean), m.x, m.z, m.w, j, i, m.o2, m.land, m.x + b.lx0, m.z + b.lz0,
           b.lx1 - b.lx0, b.lz1 - b.lz0, p - b.lx0, q - b.lz0);
  }

  /** No land in the columns before c, and none in column c before row r. */
  ghost predicate NoLandBefore(land: (int, int) -> int, x: int, z: int, c: int, r: int) {
    forall p, q :: -2 <= p <= 2 && -2 <= q <= 2 && (p < c || (p == c && q < r)) ==> !LandIsland(land, x, z, p, q)
  }

  /** The loops over ii and jj, here counted in steps of 4 from -8 to 8. */
  method FindLand(a: array<int>, ghost m: Mix, o2: nat, b: Border, i: nat, j: nat) returns (found: bool)
    requires m.o2 == o2 && m.b == b && i < m.w && j < m.h && Mixed(a[..], m, j, i)
    requires Tempered(m.ocean(m.x + i, m.z + j)) != 0
    ensures found == LandNear(m.land, m.x + i, m.z + j)
  {
    assert CellCovered(b, m.ocean, m.x, m.z, i, j);
    var c := -2;
    while c <= 2
      invariant -2 <= c <= 3 && NoLandBefore(m.land, m.x + i, m.z + j, c, -2)
    {
      var r := -2;
      while r <= 2
        invariant -2 <= r <= 3 && NoLandBefore(m.land, m.x + i, m.z + j, c, r)
      {
        var id := ReadLand(a, m, o2, b, i, j, i + 4 * c, j + 4 * r);
        if !IsOceanic(id) {
          assert LandIsland(m.land, m.x + i, m.z + j, c, r);
          return true;
        }
        r := r + 1;
      }
      c := c + 1;
    }
    found := false;
  }

  /** The body of the last double loop of `mapOceanMix`. */
  method MixOcean(a: array<int>, ghost m: Mix, o: nat, o2: nat, b: Border, w: nat, i: nat, j: nat) returns (v: int)
    requires Placed(m, o, o2, b, w) && i < w && j < m.h && Mixed(a[..], m, j, i)
    ensures v == OceanMixCell(m.land, m.ocean(m.x + i, m.z + j), m.x + i, m.z + j)
  {
    var landID := ReadLand(a, m, o2, b, i, j, i, j);
    OceanThere(a[..], m, i, j);
    var oceanID := a[o + j * w + i];
    if !IsOceanic(landID) { return landID; }
    if Tempered(oceanID) != 0 {
      var found := FindLand(a, m, o2, b, i, j);
      if found { return Tempered(oceanID); }
    }
    if landID == DEEP_OCEAN { return Deepened(oceanID); }
    v := oceanID;
  }

  lemma OceanThere(c: seq<int>, m: Mix, i: nat, j: nat)
    requires i < m.w && j < m.h && Mixed(c, m, j, i)
    ensures 0 <= m.o + j * m.w + i < |c| && c[m.o + j * m.w + i] == m.ocean(m.x + i, m.z + j)
  {
    HoldsAt(m.s, m.o, m.ocean, m.x, m.z, m.w, m.h, i, j);
    FilledLength(OceanFn(m.land, m.ocean), m.x, m.z, m.w, j, i);
    SpliceKeeps(m.s, m.o, Filled(OceanFn(m.land, m.ocean), m.x, m.z, m.w, j, i), m.o + j * m.w + i);
  }

  method MixRow(a: array<int>, ghost m: Mix, o: nat, o2: nat, b: Border, w: nat, j: nat)
    requires Placed(m, o, o2, b, w) && j < m.h && Mixed(a[..], m, j, 0)
    modifies a
    ensures Mixed(a[..], m, j, w)
  {
    var i := 0;
    while i < w
      invariant i <= w && Mixed(a[..], m, j, i)
    {
      var v := MixOcean(a, m, o, o2, b, w, i, j);
      PutMixed(a, m, o, w, j, i, v);
      i := i + 1;
    }
  }

  method PutMixed(a: array<int>, ghost m: Mix, o: nat, w: nat, j: nat, i: nat, v: int)
    requires m.o == o && m.w == w && i < w && j < m.h && Mixed(a[..], m, j, i)
    requires v == OceanMixCell(m.land, m.ocean(m.x + i, m.z + j), m.x + i, m.z + j)
    modifies a
    ensures Mixed(a[..], m, j, i + 1)
  {
    OceanThere(a[..], m, i, j);
    PutNext(a, o + j * w + i, v, m.s, o, OceanFn(m.land, m.ocean), m.x, m.z, w, j, i);
  }

  /** `mapOceanMix` after both parents were generated: the land rectangle of the found
      border suffices for the definition by an unlimited land map. */
  method MapOceanMix(a: array<int>, ghost m: Mix, o: nat, o2: nat, b: Border, w: nat, h: nat)
    requires m.s == a[..] && Placed(m, o, o2, b, w) && m.h == h && Mixing(m)
    modifies a
    ensures Holds(a[..], o, OceanFn(m.land, m.ocean), m.x, m.z, w, h) && a[..o] == old(a[..o])
  {
    var j := 0;
    StartReplacing(m.s, o, OceanFn(m.land, m.ocean), m.x, m.z, w);
    while j < h
      invariant j <= h && Mixed(a[..], m, j, 0)
    {
      MixRow(a, m, o, o2, b, w, j);
      NextRowReplaced(a[..], m.s, o, OceanFn(m.land, m.ocean), m.x, m.z, w, j);
      j := j + 1;
    }
    AllReplaced(a[..], m.s, o, OceanFn(m.land, m.ocean), m.x, m.z, w, h);
  }
}
