/** End biomes (biomenoise.c): the buffered classification by a table-driven window
    minimum, against the height function that samples each cell on its own. */
module EndBiome {
  import opened Arith
  import opened Versions
  import opened Grid

  /** The simplex noise decides which cells carry an island, and a float expression its
      size; both are arbitrary functions here. */
  datatype Noise = Noise(island: (int, int) -> bool, size: (int, int) -> nat)

  /** Elevation of a cell: 0, or a number from 9 to 21 outside the inner disc. */
  function Elevation(n: Noise, rx: int, rz: int): (v: nat)
    ensures v == 0 || 9 <= v <= 21
  {
    if Square(rx) + Square(rz) > 4096 && n.island(rx, rz) then n.size(rx, rz) % 13 + 9 else 0
  }

  type Elevations = (int, int) -> nat

  function ElevationOf(n: Noise): Elevations {
    (rx, rz) => Elevation(n, rx, rz)
  }

  // ------------------------------------------------------------ the brute-force height

  /** The cell of the window entry (i, j), both counted from -range, around (x, z). */
  function CellAt(e: Elevations, x: int, z: int, range: nat, i: nat, j: nat): nat {
    e(TruncDiv(x, 2) + i - range, TruncDiv(z, 2) + j - range)
  }

  /** Its contribution as seen from (x, z): the squared distance in half cells times the
      squared elevation. */
  function Term(e: Elevations, x: int, z: int, range: nat, i: nat, j: nat): nat {
    Times(Square(TruncMod(x, 2) - 2 * (i - range)) + Square(TruncMod(z, 2) - 2 * (j - range)),
          Square(CellAt(e, x, z, range, i, j)))
  }

  /** Lowers h to a contribution. */
  function Lower(e: Elevations, x: int, z: int, range: nat, i: nat, j: nat, h: nat): nat {
    if CellAt(e, x, z, range, i, j) != 0 && Term(e, x, z, range, i, j) < h
    then Term(e, x, z, range, i, j) else h
  }

  /** The minimum over the cells from (i, j) on, in row order, starting from h. */
  function MinFrom(e: Elevations, x: int, z: int, range: nat, j: nat, i: nat, h: nat): nat
    requires j <= 2 * range + 1 && i <= 2 * range + 1
    decreases 2 * range + 1 - j, 2 * range + 1 - i, x
  {
    if j == 2 * range + 1 then h
    else if i == 2 * range + 1 then MinFrom(e, x, z, range, j + 1, 0, h)
    else MinFrom(e, x, z, range, j, i + 1, Lower(e, x, z, range, i, j, h))
  }

  /** The integer under the square root of `getEndHeightNoise`. */
  function Height(e: Elevations, x: int, z: int, range: nat): nat {
    MinFrom(e, x, z, range, 0, 0, 64 * (Square(x) + Square(z)))
  }

  /** m is a lower bound of h and of the contributions of the cells from (i, j) on. */
  ghost predicate BelowAll(e: Elevations, x: int, z: int, range: nat, j: nat, i: nat, m: nat) {
    forall a: nat, b: nat | a <= 2 * range && j <= b <= 2 * range && (b > j || a >= i) ::
      CellAt(e, x, z, range, a, b) != 0 ==> m <= Term(e, x, z, range, a, b)
  }

  ghost predicate IsTerm(e: Elevations, x: int, z: int, range: nat, m: nat) {
    exists a: nat, b: nat | a <= 2 * range && b <= 2 * range ::
      CellAt(e, x, z, range, a, b) != 0 && m == Term(e, x, z, range, a, b)
  }

  /** It really is the minimum: at most the start value and every contribution, and
      equal to one of them. */
  lemma {:induction false} MinFromIsMinimum(e: Elevations, x: int, z: int, range: nat, j: nat, i: nat, h: nat)
    requires j <= 2 * range + 1 && i <= 2 * range + 1
    ensures var m := MinFrom(e, x, z, range, j, i, h);
      m <= h && BelowAll(e, x, z, range, j, i, m) && (m == h || IsTerm(e, x, z, range, m))
    decreases 2 * range + 1 - j, 2 * range + 1 - i
  {
    if j < 2 * range + 1 {
      if i == 2 * range + 1 {
        MinFromIsMinimum(e, x, z, range, j + 1, 0, h);
      } else {
        MinFromIsMinimum(e, x, z, range, j, i + 1, Lower(e, x, z, range, i, j, h));
      }
    }
  }

  /** `getEndHeightNoise` up to the square root. */
  method GetEndHeight(e: Elevations, x: int, z: int, range0: nat) returns (h: nat)
    ensures h == Height(e, x, z, if range0 == 0 then 12 else range0)
  {
    var hx, hz, oddx, oddz := TruncDiv(x, 2), TruncDiv(z, 2), TruncMod(x, 2), TruncMod(z, 2);
    h := 64 * (Square(x) + Square(z));
    var range: nat := if range0 == 0 then 12 else range0;
    var j: int := 0 - range;
    while j <= range
      invariant 0 - range <= j <= range + 1
      invariant MinFrom(e, x, z, range, j + range, 0, h) == Height(e, x, z, range)
    {
      var i: int := 0 - range;
      while i <= range
        invariant 0 - range <= i <= range + 1
        invariant MinFrom(e, x, z, range, j + range, i + range, h) == Height(e, x, z, range)
      {
        var v := e(hx + i, hz + j);
        if v != 0 {
          var noise := Times(Square(oddx - i * 2) + Square(oddz - j * 2), Square(v));
          if noise < h { h := noise; }
        }
        i := i + 1;
      }
      j := j + 1;
    }
  }

  // -------------------------------------------------------------------- classification

  function ClassOf(h: nat): int {
    if h < 3600 then END_HIGHLANDS
    else if h <= 10000 then END_MIDLANDS
    else if h <= 14400 then END_BARRENS
    else SMALL_END_ISLANDS
  }

  /** Start values that agree, or are both beyond the last threshold, give the same class. */
  ghost predicate SameClassStart(a: nat, b: nat) {
    a == b || (a > 14400 && b > 14400)
  }

  lemma {:induction false} ClassFromStart(e: Elevations, x: int, z: int, range: nat, j: nat, i: nat, a: nat, b: nat)
    requires j <= 2 * range + 1 && i <= 2 * range + 1 && SameClassStart(a, b)
    ensures ClassOf(MinFrom(e, x, z, range, j, i, a)) == ClassOf(MinFrom(e, x, z, range, j, i, b))
    decreases 2 * range + 1 - j, 2 * range + 1 - i
  {
    if j < 2 * range + 1 {
      if i == 2 * range + 1 {
        ClassFromStart(e, x, z, range, j + 1, 0, a, b);
      } else {
        ClassFromStart(e, x, z, range, j, i + 1, Lower(e, x, z, range, i, j, a), Lower(e, x, z, range, i, j, b));
      }
    }
  }

  /** The thresholds that the scaled generator puts on the height 100 - sqrt(h), clamped
      to [-100, 80]. */
  function ClassOfHeight(y: real): int {
    if y > 40.0 then END_HIGHLANDS
    else if y >= 0.0 then END_MIDLANDS
    else if y >= -20.0 then END_BARRENS
    else SMALL_END_ISLANDS
  }

  function Clamp(y: real): real {
    if y < -100.0 then -100.0 else if y > 80.0 then 80.0 else y
  }

  /** They are the thresholds on the integer, for an exact square root. */
  lemma HeightClass(h: nat, root: real)
    requires root >= 0.0 && root * root == h as real
    ensures ClassOfHeight(Clamp(100.0 - root)) == ClassOf(h)
  {
    RootCompare(root, 60.0);
    RootCompare(root, 100.0);
    RootCompare(root, 120.0);
  }

  lemma RootCompare(a: real, b: real)
    requires a >= 0.0 && b > 0.0
    ensures a < b <==> a * a < b * b
    ensures a <= b <==> a * a <= b * b
  {
    RealProducts(a, b);
  }

  lemma RealProducts(a: real, b: real)
    requires a >= 0.0 && b > 0.0
    ensures a < b ==> a * a < b * b
    ensures a > b ==> a * a > b * b
  {
    var d := b - a;
    assert b * b == a * a + d * (a + b);
    if d > 0.0 {
      assert d * (a + b) > 0.0;
    } else if d < 0.0 {
      assert (-d) * (a + b) > 0.0;
    }
  }

  // ------------------------------------------------------------------ the fast version

  const DS: seq<nat> := [625, 529, 441, 361, 289, 225, 169, 121, 81, 49, 25, 9, 1,
                         1, 9, 25, 49, 81, 121, 169, 225, 289, 361, 441, 529, 625]

  lemma SquareTable(k: nat)
    requires k < 26
    ensures |DS| == 26 && DS[k] == Square(25 - 2 * k)
  {
  }

  /** The start value of the fast version. */
  function CappedStart(hx: int, hz: int): nat {
    if -15 <= hx <= 15 && -15 <= hz <= 15 then 64 * (Square(hx) + Square(hz)) else 14401
  }

  lemma CapIsHarmless(hx: int, hz: int)
    ensures SameClassStart(CappedStart(hx, hz), 64 * (Square(hx) + Square(hz)))
  {
    if !(-15 <= hx <= 15) { AtLeastSquare(hx, 16); }
    if !(-15 <= hz <= 15) { AtLeastSquare(hz, 16); }
  }

  lemma AtLeastSquare(a: int, b: nat)
    requires a >= b || -a >= b
    ensures Square(a) >= Square(b)
  {
    if a >= b { MulMonotone(b, a, b, a); } else { MulMonotone(b, -a, b, -a); }
  }

  /** The table read with the sign shift is the brute-force squared offset, for odd
      coordinates of either sign. */
  lemma OffsetTable(h: int, i: nat)
    requires h % 2 == 1 && i < 25
    ensures i + (if h < 0 then 1 else 0) < |DS|
    ensures DS[i + (if h < 0 then 1 else 0)] == Square(TruncMod(h, 2) - 2 * (i - 12))
  {
    SquareTable(i);
    SquareTable(i + 1);
  }

  /** Squared elevations, as stored in the buffer. */
  function Stored(e: Elevations): (int, int) -> nat {
    (x, z) => Square(e(x - 12, z - 12))
  }

  /** `getEndBiome` on the window whose first entry is column a of row b of the buffer
      of width hw for the area at (x, z). */
  method GetEndBiome(e: Elevations, hx: int, hz: int, hmap: array<nat>, x: int, z: int, hw: nat, hh: nat,
                     a: nat, b: nat) returns (biome: int)
    requires hx % 2 == 1 && hz % 2 == 1 && hmap[..] == Rows(Stored(e), x, z, hw, hh)
    requires a + 25 <= hw && b + 25 <= hh && x + a == TruncDiv(hx, 2) && z + b == TruncDiv(hz, 2)
    ensures biome == ClassOf(Height(e, hx, hz, 12))
  {
    var pi, pj := if hx < 0 then 1 else 0, if hz < 0 then 1 else 0;
    var h: nat := if -15 <= hx <= 15 && -15 <= hz <= 15 then 64 * (Square(hx) + Square(hz)) else 14401;
    ghost var goal := MinFrom(e, hx, hz, 12, 0, 0, h);
    for j := 0 to 25
      invariant MinFrom(e, hx, hz, 12, j, 0, h) == goal
    {
      OffsetTable(hz, j);
      h := ScanWindowRow(e, hx, hz, hmap, x, z, hw, hh, a, b, j, pi, DS[pj + j], h);
    }
    CapIsHarmless(hx, hz);
    ClassFromStart(e, hx, hz, 12, 0, 0, CappedStart(hx, hz), 64 * (Square(hx) + Square(hz)));
    biome := ClassOf(h);
  }

  /** The unrolled inner loop of `getEndBiome`. */
  method ScanWindowRow(e: Elevations, hx: int, hz: int, hmap: array<nat>, x: int, z: int, hw: nat, hh: nat,
                       a: nat, b: nat, j: nat, pi: nat, dsj: nat, h0: nat) returns (h: nat)
    requires hx % 2 == 1 && hmap[..] == Rows(Stored(e), x, z, hw, hh) && j < 25
    requires a + 25 <= hw && b + 25 <= hh && x + a == TruncDiv(hx, 2) && z + b == TruncDiv(hz, 2)
    requires pi == (if hx < 0 then 1 else 0) && dsj == Square(TruncMod(hz, 2) - 2 * (j - 12))
    ensures MinFrom(e, hx, hz, 12, j + 1, 0, h) == MinFrom(e, hx, hz, 12, j, 0, h0)
  {
    h := h0;
    for i := 0 to 25
      invariant MinFrom(e, hx, hz, 12, j, i, h) == MinFrom(e, hx, hz, 12, j, 0, h0)
    {
      OffsetTable(hx, i);
      var v := ReadCell(e, hmap, x, z, hw, hh, a + i, b + j);
      h := LeastWith(e, hx, hz, i, j, v, DS[pi + i], dsj, h);
    }
  }

  /** One cell of the window. */
  method LeastWith(ghost e: Elevations, ghost hx: int, ghost hz: int, ghost i: nat, ghost j: nat, v: nat, dsi: nat,
                   dsj: nat, h0: nat) returns (h: nat)
    requires i < 25 && j < 25
    requires v == Stored(e)(TruncDiv(hx, 2) + i, TruncDiv(hz, 2) + j)
    requires dsi == Square(TruncMod(hx, 2) - 2 * (i - 12)) && dsj == Square(TruncMod(hz, 2) - 2 * (j - 12))
    ensures MinFrom(e, hx, hz, 12, j, i + 1, h) == MinFrom(e, hx, hz, 12, j, i, h0)
  {
    WindowStep(e, hx, hz, i, j, v, dsi, dsj, h0);
    h := h0;
    if v != 0 {
      var u := Times(dsi + dsj, v);
      if u < h { h := u; }
    }
  }

  /** A read of the buffer at column i of row j. */
  method ReadCell(e: Elevations, hmap: array<nat>, x: int, z: int, hw: nat, hh: nat, i: nat, j: nat)
    returns (v: nat)
    requires hmap[..] == Rows(Stored(e), x, z, hw, hh) && i < hw && j < hh
    ensures v == Stored(e)(x + i, z + j)
  {
    RowsAt(Stored(e), x, z, hw, hh, i, j);
    v := hmap[j * hw + i];
    assert v == hmap[..][j * hw + i];
  }

  lemma WindowStep(e: Elevations, hx: int, hz: int, i: nat, j: nat, v: nat, dsi: nat, dsj: nat, h: nat)
    requires i < 25 && j < 25
    requires v == Stored(e)(TruncDiv(hx, 2) + i, TruncDiv(hz, 2) + j)
    requires dsi == Square(TruncMod(hx, 2) - 2 * (i - 12)) && dsj == Square(TruncMod(hz, 2) - 2 * (j - 12))
    ensures MinFrom(e, hx, hz, 12, j, i, h)
         == MinFrom(e, hx, hz, 12, j, i + 1, if v != 0 && Times(dsi + dsj, v) < h then Times(dsi + dsj, v) else h)
  {
    var c := CellAt(e, hx, hz, 12, i, j);
    assert v == Square(c);
    if c > 0 { MulMonotone(1, c, 1, c); }
  }

  /** Above 1.13, cells whose squared distance has bit 31 set belong to the outer rings. */
  predicate InOuterRing(mc: int, hx: int, hz: int) {
    mc > MC_1_13 && S32(Square(hx) + Square(hz)) < 0
  }

  /** The biome of a cell by brute force. */
  function CellBiome(e: Elevations, mc: int, cx: int, cz: int): int {
    if Square(cx) + Square(cz) <= 4096 then THE_END else OuterBiome(e, mc, 2 * cx + 1, 2 * cz + 1)
  }

  function OuterBiome(e: Elevations, mc: int, hx: int, hz: int): int {
    if InOuterRing(mc, hx, hz) then END_BARRENS else ClassOf(Height(e, hx, hz, 12))
  }

  function CellBiomeOf(e: Elevations, mc: int): (int, int) -> int {
    (cx, cz) => CellBiome(e, mc, cx, cz)
  }

  /** `mapEndBiome`: every cell of the output is the brute-force biome of its position. */
  method MapEndBiome(n: Noise, mc: int, out: array<int>, x: int, z: int, w: nat, h: nat)
    requires out.Length >= h * w
    modifies out
    ensures h * w == |Rows(CellBiomeOf(ElevationOf(n), mc), x, z, w, h)|
    ensures out[..h * w] == Rows(CellBiomeOf(ElevationOf(n), mc), x, z, w, h)
    ensures out[h * w..] == old(out[h * w..])
  {
    ghost var f := CellBiomeOf(ElevationOf(n), mc);
    RowsLength(f, x, z, w, h);
    var hmap := FillElevations(n, x, z, w + 26, h + 26);
    MapEndRows(n, mc, out, hmap, x, z, w, h);
  }

  /** The first j rows lie at the front of a buffer, up to index at. */
  ghost predicate HasRows<T(!new)>(b: seq<T>, f: (int, int) -> T, x: int, z: int, w: nat, j: nat, at: nat) {
    at == |Rows(f, x, z, w, j)| <= |b| && b[..at] == Rows(f, x, z, w, j)
  }

  lemma RowAdded<T(!new)>(b: seq<T>, b': seq<T>, f: (int, int) -> T, x: int, z: int, w: nat, j: nat, at: nat)
    requires HasRows(b, f, x, z, w, j, at) && at + w <= |b'| == |b|
    requires b'[..at] == b[..at] && b'[at..at + w] == Row(f, x, z + j, w)
    ensures HasRows(b', f, x, z, w, j + 1, at + w)
  {
    assert b'[..at + w] == b'[..at] + b'[at..at + w];
  }

  method MapEndRows(n: Noise, mc: int, out: array<int>, hmap: array<nat>, x: int, z: int, w: nat, h: nat)
    requires |Rows(CellBiomeOf(ElevationOf(n), mc), x, z, w, h)| <= out.Length
    requires hmap[..] == Rows(Stored(ElevationOf(n)), x, z, w + 26, h + 26)
    modifies out
    ensures var r := Rows(CellBiomeOf(ElevationOf(n), mc), x, z, w, h);
      out[..|r|] == r && out[|r|..] == old(out[|r|..])
  {
    ghost var f, was := CellBiomeOf(ElevationOf(n), mc), out[..];
    var at, j := 0, 0;
    while j < h
      invariant 0 <= j <= h && 0 <= at <= out.Length && HasRows(out[..], f, x, z, w, j, at)
      invariant hmap[..] == Rows(Stored(ElevationOf(n)), x, z, w + 26, h + 26)
      invariant out[..][at..] == was[at..]
    {
      RowFits(f, x, z, w, j, h);
      ghost var before := out[..];
      MapEndRow(n, mc, out, hmap, x, z, w, h, j, at, before);
      RowAdded(before, out[..], f, x, z, w, j, at);
      TailKept(before, out[..], was, at, w);
      at, j := at + w, j + 1;
    }
  }

  lemma TailKept(b: seq<int>, b': seq<int>, was: seq<int>, at: nat, w: nat)
    requires at + w <= |b| == |b'| == |was| && b[at..] == was[at..] && b'[at + w..] == b[at + w..]
    ensures b'[at + w..] == was[at + w..]
  {
    assert b[at + w..] == b[at..][w..];
    assert was[at + w..] == was[at..][w..];
  }

  /** One row of the output, at index `at` of the buffer. */
  method MapEndRow(n: Noise, mc: int, out: array<int>, hmap: array<nat>, x: int, z: int, w: nat, h: nat, j: nat,
                   at: nat, ghost before: seq<int>)
    requires before == out[..] && j < h && at + w <= out.Length
    requires hmap[..] == Rows(Stored(ElevationOf(n)), x, z, w + 26, h + 26)
    modifies out
    ensures out[..][at..at + w] == Row(CellBiomeOf(ElevationOf(n), mc), x, z + j, w)
    ensures out[..][..at] == before[..at] && out[..][at + w..] == before[at + w..]
  {
    ghost var f := CellBiomeOf(ElevationOf(n), mc);
    assert out[..][at..at + 0] == [];
    for i := 0 to w
      invariant out[..][at..at + i] == Row(f, x, z + j, i)
      invariant out[..][..at] == before[..at] && out[..][at + w..] == before[at + w..]
    {
      var biome := CellOf(n, mc, hmap, x, z, w, h, i, j);
      CellAdded(out[..], at, i, w, biome);
      out[at + i] := biome;
    }
  }

  lemma CellAdded(b: seq<int>, at: nat, i: nat, w: nat, v: int)
    requires i < w && at + w <= |b|
    ensures b[at + i := v][at..at + i + 1] == b[at..at + i] + [v]
    ensures b[at + i := v][..at] == b[..at] && b[at + i := v][at + w..] == b[at + w..]
  {
  }

  /** The two filling loops over the elevation buffer. */
  method FillElevations(n: Noise, x: int, z: int, hw: nat, hh: nat) returns (hmap: array<nat>)
    ensures fresh(hmap) && hmap[..] == Rows(Stored(ElevationOf(n)), x, z, hw, hh)
  {
    RowsLength(Stored(ElevationOf(n)), x, z, hw, hh);
    hmap := new nat[Times(hh, hw)];
    FillElevationRows(n, hmap, x, z, hw, hh);
  }

  method FillElevationRows(n: Noise, hmap: array<nat>, x: int, z: int, hw: nat, hh: nat)
    requires hmap.Length == |Rows(Stored(ElevationOf(n)), x, z, hw, hh)|
    modifies hmap
    ensures hmap[..] == Rows(Stored(ElevationOf(n)), x, z, hw, hh)
  {
    ghost var f := Stored(ElevationOf(n));
    var at, j := 0, 0;
    while j < hh
      invariant 0 <= j <= hh && 0 <= at <= hmap.Length && HasRows(hmap[..], f, x, z, hw, j, at)
    {
      RowFits(f, x, z, hw, j, hh);
      ghost var before := hmap[..];
      FillElevationRow(n, hmap, x, z + j, hw, at);
      RowAdded(before, hmap[..], f, x, z, hw, j, at);
      at, j := at + hw, j + 1;
    }
    assert hmap[..at] == hmap[..];
  }

  method FillElevationRow(n: Noise, hmap: array<nat>, x: int, z: int, hw: nat, at: nat)
    requires at + hw <= hmap.Length
    modifies hmap
    ensures hmap[..][..at] == old(hmap[..][..at]) && hmap[..][at..at + hw] == Row(Stored(ElevationOf(n)), x, z, hw)
  {
    ghost var f := Stored(ElevationOf(n));
    for i := 0 to hw
      invariant hmap[..at] == old(hmap[..at]) && hmap[at..at + i] == Row(f, x, z, i)
    {
      var v := Elevation(n, x + i - 12, z - 12);
      hmap[at + i] := Square(v);
      assert hmap[at..at + i + 1] == hmap[at..at + i] + [Square(v)];
    }
  }

  /** The body of the output loop. */
  method CellOf(n: Noise, mc: int, hmap: array<nat>, x: int, z: int, w: nat, h: nat, i: nat, j: nat)
    returns (biome: int)
    requires i < w && j < h && hmap[..] == Rows(Stored(ElevationOf(n)), x, z, w + 26, h + 26)
    ensures biome == CellBiome(ElevationOf(n), mc, x + i, z + j)
  {
    var cx, cz := x + i, z + j;
    if Square(cx) + Square(cz) <= 4096 { return THE_END; }
    biome := OuterCell(ElevationOf(n), mc, hmap, x, z, w + 26, h + 26, 2 * cx + 1, 2 * cz + 1);
    OuterCellBiome(ElevationOf(n), mc, cx, cz);
  }

  lemma OuterCellBiome(e: Elevations, mc: int, cx: int, cz: int)
    requires Square(cx) + Square(cz) > 4096
    ensures CellBiome(e, mc, cx, cz) == OuterBiome(e, mc, 2 * cx + 1, 2 * cz + 1)
  {
  }

  method OuterCell(e: Elevations, mc: int, hmap: array<nat>, x: int, z: int, hw: nat, hh: nat, hx: int, hz: int)
    returns (biome: int)
    requires hmap[..] == Rows(Stored(e), x, z, hw, hh) && hx % 2 == 1 && hz % 2 == 1
    requires 2 * x < hx && 2 * z < hz && hx < 2 * (x + hw - 26) && hz < 2 * (z + hh - 26)
    ensures biome == OuterBiome(e, mc, hx, hz)
  {
    if InOuterRing(mc, hx, hz) { return END_BARRENS; }
    biome := GetEndBiome(e, hx, hz, hmap, x, z, hw, hh, TruncDiv(hx, 2) - x, TruncDiv(hz, 2) - z);
  }
}
