/** The unit layers of layers.c that rewrite their parent's rectangle in place: each
    asks its parent for a rectangle one cell larger on every side. */
module LayerFilters {
  import opened Arith
  import opened Versions
  import opened Grid
  import opened Buffer
  import opened LayerRules

  /** A rewrite, for the proof only: the memory s before it, in which the parent map f lies
      at o, and the map g that takes its place in the rectangle (x, z, w, h). */
  datatype Rewrite = Rewrite(s: seq<int>, o: nat, f: (int, int) -> int, g: (int, int) -> int, x: int, z: int,
                             w: nat, h: nat)

  ghost predicate HasParent(r: Rewrite) {
    Holds(r.s, r.o, r.f, r.x - 1, r.z - 1, r.w + 2, r.h + 2)
  }

  /** The first j rows and i cells of row j are rewritten. */
  ghost predicate Rewritten(b: seq<int>, r: Rewrite, j: nat, i: nat) {
    HasParent(r) && Replaced(b, r.s, r.o, r.g, r.x, r.z, r.w, j, i)
  }

  predicate Fits(r: Rewrite, o: nat, x: int, z: int, w: nat) {
    r.o == o && r.x == x && r.z == z && r.w == w
  }

  /** Cell (i + di, j + dj) of the parent, numbered from its first row and column, is
      there when cell (i, j) is rewritten. */
  lemma ParentThere(b: seq<int>, r: Rewrite, i: nat, j: nat, di: nat, dj: nat)
    requires Rewritten(b, r, j, i) && i + di < r.w + 2 && j + dj < r.h + 2
    ensures var k := r.o + (j + dj) * (r.w + 2) + (i + di);
      && 0 <= r.o + j * r.w + i <= k < |b| && b[k] == r.f(r.x + i + di - 1, r.z + j + dj - 1)
  {
    StillThere(r.s, b, r.o, r.g, r.f, r.x, r.z, r.w, r.h, i, j, di, dj);
  }

  method ReadParent(a: array<int>, ghost r: Rewrite, o: nat, ghost x: int, ghost z: int, w: nat, i: nat, j: nat,
                    di: nat, dj: nat) returns (v: int)
    requires Fits(r, o, x, z, w) && Rewritten(a[..], r, j, i) && i + di < w + 2 && j + dj < r.h + 2
    ensures v == r.f(x + i + di - 1, z + j + dj - 1)
  {
    ParentThere(a[..], r, i, j, di, dj);
    v := a[o + (j + dj) * (w + 2) + (i + di)];
  }

  method ReadThree(a: array<int>, ghost r: Rewrite, o: nat, ghost x: int, ghost z: int, w: nat, i: nat, j: nat, dj: nat)
    returns (v0: int, v1: int, v2: int)
    requires Fits(r, o, x, z, w) && Rewritten(a[..], r, j, i) && i < w && j < r.h && dj <= 2
    ensures v0 == r.f(x + i - 1, z + j + dj - 1) && v1 == r.f(x + i, z + j + dj - 1)
    ensures v2 == r.f(x + i + 1, z + j + dj - 1)
  {
    v0 := ReadParent(a, r, o, x, z, w, i, j, 0, dj);
    v1 := ReadParent(a, r, o, x, z, w, i, j, 1, dj);
    v2 := ReadParent(a, r, o, x, z, w, i, j, 2, dj);
  }

  method ReadNine(a: array<int>, ghost r: Rewrite, o: nat, ghost x: int, ghost z: int, w: nat, i: nat, j: nat)
    returns (v: Nine)
    requires Fits(r, o, x, z, w) && Rewritten(a[..], r, j, i) && i < w && j < r.h
    ensures v == Around(r.f, x + i, z + j)
  {
    var v00, v10, v20 := ReadThree(a, r, o, x, z, w, i, j, 0);
    var v01, v11, v21 := ReadThree(a, r, o, x, z, w, i, j, 1);
    var v02, v12, v22 := ReadThree(a, r, o, x, z, w, i, j, 2);
    v := Nine(v00, v10, v20, v01, v11, v21, v02, v12, v22);
  }

  /** Writes the cell under the cursor. */
  method Put(a: array<int>, ghost r: Rewrite, o: nat, ghost x: int, ghost z: int, w: nat, i: nat, j: nat, v: int)
    requires Fits(r, o, x, z, w) && Rewritten(a[..], r, j, i) && i < w && j < r.h && v == r.g(x + i, z + j)
    modifies a
    ensures Rewritten(a[..], r, j, i + 1)
  {
    ParentThere(a[..], r, i, j, 0, 0);
    PutNext(a, o + j * w + i, v, r.s, o, r.g, r.x, r.z, w, j, i);
  }

  lemma NextRow(b: seq<int>, r: Rewrite, j: nat)
    ensures Rewritten(b, r, j, r.w) <==> Rewritten(b, r, j + 1, 0)
  {
    NextRowReplaced(b, r.s, r.o, r.g, r.x, r.z, r.w, j);
  }

  lemma StartRewrite(r: Rewrite)
    requires HasParent(r)
    ensures Rewritten(r.s, r, 0, 0)
  {
    StartReplacing(r.s, r.o, r.g, r.x, r.z, r.w);
  }

  lemma AllRewritten(b: seq<int>, r: Rewrite)
    requires Rewritten(b, r, r.h, 0)
    ensures Holds(b, r.o, r.g, r.x, r.z, r.w, r.h) && b[..r.o] == r.s[..r.o] && |b| == |r.s|
  {
    AllReplaced(b, r.s, r.o, r.g, r.x, r.z, r.w, r.h);
  }

  // ------------------------------------------------------------- mushrooms and smoothing

  /** The loops of `mapMushroom` and `mapSmooth`, for the rule of a cell. */
  method MapFilter(rule: (Nine, int, int) -> int, ghost f: (int, int) -> int, a: array<int>, o: nat, x: int, z: int,
                   w: nat, h: nat)
    requires Holds(a[..], o, f, x - 1, z - 1, w + 2, h + 2)
    modifies a
    ensures Holds(a[..], o, FilterFn(rule, f), x, z, w, h) && a[..o] == old(a[..o])
  {
    ghost var r := Rewrite(a[..], o, f, FilterFn(rule, f), x, z, w, h);
    StartRewrite(r);
    FilterRows(rule, a, r, o, x, z, w, h);
    AllRewritten(a[..], r);
  }

  method FilterRows(rule: (Nine, int, int) -> int, a: array<int>, ghost r: Rewrite, o: nat, x: int, z: int,
                    w: nat, h: nat)
    requires Fits(r, o, x, z, w) && r.h == h && Rewritten(a[..], r, 0, 0)
    requires r.g == FilterFn(rule, r.f)
    modifies a
    ensures Rewritten(a[..], r, h, 0)
  {
    var j := 0;
    while j < h
      invariant j <= h && Rewritten(a[..], r, j, 0)
    {
      FilterRow(rule, a, r, o, x, z, w, j);
      NextRow(a[..], r, j);
      j := j + 1;
    }
  }

  method FilterRow(rule: (Nine, int, int) -> int, a: array<int>, ghost r: Rewrite, o: nat, x: int, z: int, w: nat,
                   j: nat)
    requires Fits(r, o, x, z, w) && r.g == FilterFn(rule, r.f) && j < r.h && Rewritten(a[..], r, j, 0)
    modifies a
    ensures Rewritten(a[..], r, j, w)
  {
    var i := 0;
    while i < w
      invariant i <= w && Rewritten(a[..], r, j, i)
    {
      var v := ReadNine(a, r, o, x, z, w, i, j);
      FilterFnAt(rule, r.f, x + i, z + j);
      Put(a, r, o, x, z, w, i, j, rule(v, x + i, z + j));
      i := i + 1;
    }
  }

  lemma FilterFnAt(rule: (Nine, int, int) -> int, f: (int, int) -> int, x: int, z: int)
    ensures FilterFn(rule, f)(x, z) == rule(Around(f, x, z), x, z)
  {
  }

  // ---------------------------------------------------------------------------- islands

  /** The loops of `mapIsland`: each cell is written before its neighbours are read. */
  method MapIsland(rises: (int, int) -> bool, ghost f: (int, int) -> int, a: array<int>, o: nat, x: int, z: int,
                   w: nat, h: nat)
    requires Holds(a[..], o, f, x - 1, z - 1, w + 2, h + 2)
    modifies a
    ensures Holds(a[..], o, FilterFn(IslandRule(rises), f), x, z, w, h) && a[..o] == old(a[..o])
  {
    ghost var r := Rewrite(a[..], o, f, FilterFn(IslandRule(rises), f), x, z, w, h);
    StartRewrite(r);
    IslandRows(rises, a, r, o, x, z, w, h);
    AllRewritten(a[..], r);
  }

  method IslandRows(rises: (int, int) -> bool, a: array<int>, ghost r: Rewrite, o: nat, x: int, z: int, w: nat,
                    h: nat)
    requires Fits(r, o, x, z, w) && r.h == h && Rewritten(a[..], r, 0, 0)
    requires r.g == FilterFn(IslandRule(rises), r.f)
    modifies a
    ensures Rewritten(a[..], r, h, 0)
  {
    var j := 0;
    while j < h
      invariant j <= h && Rewritten(a[..], r, j, 0)
    {
      IslandRow(rises, a, r, o, x, z, w, j);
      NextRow(a[..], r, j);
      j := j + 1;
    }
  }

  method IslandRow(rises: (int, int) -> bool, a: array<int>, ghost r: Rewrite, o: nat, x: int, z: int, w: nat, j: nat)
    requires Fits(r, o, x, z, w) && r.g == FilterFn(IslandRule(rises), r.f) && j < r.h
    requires Rewritten(a[..], r, j, 0)
    modifies a
    ensures Rewritten(a[..], r, j, w)
  {
    var i := 0;
    while i < w
      invariant i <= w && Rewritten(a[..], r, j, i)
    {
      var v11 := ReadParent(a, r, o, x, z, w, i, j, 1, 1);
      ParentThere(a[..], r, i, j, 0, 0);
      IslandFnAt(rises, r.f, x + i, z + j);
      IslandCell(rises, a, r, o, x, z, w, i, j, v11, o + j * w + i);
      i := i + 1;
    }
  }

  /** One cell, at k: it is written first, and again if an island rises. */
  method IslandCell(rises: (int, int) -> bool, a: array<int>, ghost r: Rewrite, o: nat, x: int, z: int, w: nat,
                    i: nat, j: nat, v11: int, k: nat)
    requires Fits(r, o, x, z, w) && Rewritten(a[..], r, j, i) && i < w && j < r.h
    requires k == o + j * w + i && k < a.Length && v11 == r.f(x + i, z + j)
    requires r.g(x + i, z + j) == if OceanAround(Around(r.f, x + i, z + j)) && rises(x + i, z + j) then 1 else v11
    modifies a
    ensures Rewritten(a[..], r, j, i + 1)
  {
    ghost var b := a[..];
    a[k] := v11;
    assert a[..] == b[k := v11];
    if v11 == OCEAN {
      var among := OceanBehind(a, b, r, o, x, z, w, i, j, k);
      if among && rises(x + i, z + j) { a[k] := 1; }
    }
    assert a[..] == b[k := r.g(x + i, z + j)];
    NextReplaced(b, r.s, o, r.g, x, z, w, j, i, k);
  }

  lemma IslandFnAt(rises: (int, int) -> bool, f: (int, int) -> int, x: int, z: int)
    ensures FilterFn(IslandRule(rises), f)(x, z) == if OceanAround(Around(f, x, z)) && rises(x, z) then 1 else f(x, z)
  {
  }

  /** The memory b, in which row j was rewritten up to column i, but for the cell at k. */
  ghost predicate WrittenAt(b': seq<int>, b: seq<int>, r: Rewrite, i: nat, j: nat, k: nat) {
    && Rewritten(b, r, j, i) && i < r.w && j < r.h && k == r.o + j * r.w + i && k < |b|
    && |b'| == |b| && b' == b[k := b'[k]]
  }

  /** The tests of the neighbours above, right, left and below. */
  method OceanBehind(a: array<int>, ghost b: seq<int>, ghost r: Rewrite, o: nat, ghost x: int, ghost z: int, w: nat,
                     i: nat, j: nat, ghost k: nat) returns (among: bool)
    requires Fits(r, o, x, z, w) && WrittenAt(a[..], b, r, i, j, k) && r.f(x + i, z + j) == OCEAN
    ensures among <==> OceanAround(Around(r.f, x + i, z + j))
  {
    var v10 := ReadBehind(a, b, r, o, x, z, w, i, j, k, 1, 0);
    if v10 != OCEAN { return false; }
    var v21 := ReadBehind(a, b, r, o, x, z, w, i, j, k, 2, 1);
    if v21 != OCEAN { return false; }
    var v01 := ReadBehind(a, b, r, o, x, z, w, i, j, k, 0, 1);
    if v01 != OCEAN { return false; }
    var v12 := ReadBehind(a, b, r, o, x, z, w, i, j, k, 1, 2);
    among := v12 == OCEAN;
  }

  /** A parent cell behind the one just written is still there. */
  method ReadBehind(a: array<int>, ghost b: seq<int>, ghost r: Rewrite, o: nat, ghost x: int, ghost z: int, w: nat,
                    i: nat, j: nat, ghost k: nat, di: nat, dj: nat) returns (v: int)
    requires Fits(r, o, x, z, w) && WrittenAt(a[..], b, r, i, j, k) && di <= 2 && dj <= 2 && di + dj > 0
    ensures v == r.f(x + i + di - 1, z + j + dj - 1)
  {
    ParentThere(b, r, i, j, di, dj);
    Behind(i, j, di, dj, w);
    ghost var p := o + (j + dj) * (w + 2) + (i + di);
    assert a[..][p] == b[p];
    v := a[o + (j + dj) * (w + 2) + (i + di)];
  }

  lemma Behind(i: nat, j: nat, di: nat, dj: nat, w: nat)
    requires di + dj > 0
    ensures j * w + i < (j + dj) * (w + 2) + (i + di)
  {
    MulMonotone(j, j, w, w + 2);
    Distribute(j, 0 - dj, w + 2);
    Distribute(j, dj, w + 2);
    if dj > 0 { MulMonotone(1, dj, w + 2, w + 2); }
  }

  // ------------------------------------------------------------------------------- land

  /** The loops of `mapLand`: the two cells behind the cursor in the rows above and below
      are kept in variables, because their places may be overwritten already. */
  method MapLand(rule: (Diagonal, int, int) -> int, ghost f: (int, int) -> int, a: array<int>, o: nat, x: int, z: int,
                 w: nat, h: nat)
    requires Holds(a[..], o, f, x - 1, z - 1, w + 2, h + 2)
    modifies a
    ensures Holds(a[..], o, LandFn(rule, f), x, z, w, h) && a[..o] == old(a[..o])
  {
    ghost var r := Rewrite(a[..], o, f, LandFn(rule, f), x, z, w, h);
    StartRewrite(r);
    LandRows(rule, a, r, o, x, z, w, h);
    AllRewritten(a[..], r);
  }

  method LandRows(rule: (Diagonal, int, int) -> int, a: array<int>, ghost r: Rewrite, o: nat, x: int, z: int,
                  w: nat, h: nat)
    requires Fits(r, o, x, z, w) && r.h == h && r.g == LandFn(rule, r.f) && Rewritten(a[..], r, 0, 0)
    modifies a
    ensures Rewritten(a[..], r, h, 0)
  {
    var j := 0;
    while j < h
      invariant j <= h && Rewritten(a[..], r, j, 0)
    {
      LandRow(rule, a, r, o, x, z, w, j);
      NextRow(a[..], r, j);
      j := j + 1;
    }
  }

  method LandRow(rule: (Diagonal, int, int) -> int, a: array<int>, ghost r: Rewrite, o: nat, x: int, z: int, w: nat,
                 j: nat)
    requires Fits(r, o, x, z, w) && r.g == LandFn(rule, r.f) && j < r.h && Rewritten(a[..], r, j, 0)
    modifies a
    ensures Rewritten(a[..], r, j, w)
  {
    var i := 0;
    var v00 := ReadParent(a, r, o, x, z, w, 0, j, 0, 0);
    var vt0 := ReadParent(a, r, o, x, z, w, 0, j, 1, 0);
    var v02 := ReadParent(a, r, o, x, z, w, 0, j, 0, 2);
    var vt2 := ReadParent(a, r, o, x, z, w, 0, j, 1, 2);
    while i < w
      invariant i <= w && Rewritten(a[..], r, j, i)
      invariant v00 == r.f(x + i - 1, z + j - 1) && vt0 == r.f(x + i, z + j - 1)
      invariant v02 == r.f(x + i - 1, z + j + 1) && vt2 == r.f(x + i, z + j + 1)
    {
      var v := PutLand(rule, a, r, o, x, z, w, i, j, v00, v02);
      v00, vt0 := vt0, v.v20;
      v02, vt2 := vt2, v.v22;
      i := i + 1;
    }
  }

  /** The three cells that `mapLand` reads for one cell, with the two it has kept. */
  method ReadDiagonal(a: array<int>, ghost r: Rewrite, o: nat, ghost x: int, ghost z: int, w: nat, i: nat, j: nat,
                      v00: int, v02: int) returns (v: Diagonal)
    requires Fits(r, o, x, z, w) && Rewritten(a[..], r, j, i) && i < w && j < r.h
    requires v00 == r.f(x + i - 1, z + j - 1) && v02 == r.f(x + i - 1, z + j + 1)
    ensures v == Diagonals(r.f, x + i, z + j)
    ensures v.v20 == r.f(x + i + 1, z + j - 1) && v.v22 == r.f(x + i + 1, z + j + 1)
  {
    var v11 := ReadParent(a, r, o, x, z, w, i, j, 1, 1);
    var v20 := ReadParent(a, r, o, x, z, w, i, j, 2, 0);
    var v22 := ReadParent(a, r, o, x, z, w, i, j, 2, 2);
    v := Diagonal(v00, v20, v11, v02, v22);
  }

  lemma LandFnAt(rule: (Diagonal, int, int) -> int, r: Rewrite, x: int, z: int, v: Diagonal)
    requires r.g == LandFn(rule, r.f) && v == Diagonals(r.f, x, z)
    ensures r.g(x, z) == rule(v, x, z)
  {
  }

  /** One cell; v holds what the next cell needs. */
  method PutLand(rule: (Diagonal, int, int) -> int, a: array<int>, ghost r: Rewrite, o: nat, x: int, z: int, w: nat,
                 i: nat, j: nat, v00: int, v02: int) returns (v: Diagonal)
    requires Fits(r, o, x, z, w) && r.g == LandFn(rule, r.f) && Rewritten(a[..], r, j, i) && i < w && j < r.h
    requires v00 == r.f(x + i - 1, z + j - 1) && v02 == r.f(x + i - 1, z + j + 1)
    modifies a
    ensures Rewritten(a[..], r, j, i + 1)
    ensures v.v20 == r.f(x + i + 1, z + j - 1) && v.v22 == r.f(x + i + 1, z + j + 1)
  {
    v := ReadDiagonal(a, r, o, x, z, w, i, j, v00, v02);
    LandFnAt(rule, r, x + i, z + j, v);
    Put(a, r, o, x, z, w, i, j, rule(v, x + i, z + j));
  }

  // ------------------------------------------------------------------------------ hills

  /** The second parent map f2 lies at o2, behind the first. */
  ghost predicate HasSecond(r: Rewrite, o2: nat, f2: (int, int) -> int) {
    && o2 == r.o + |Rows(r.f, r.x - 1, r.z - 1, r.w + 2, r.h + 2)|
    && Holds(r.s, o2, f2, r.x - 1, r.z - 1, r.w + 2, r.h + 2)
  }

  lemma SecondThere(s: seq<int>, o: nat, f: (int, int) -> int, f2: (int, int) -> int, g: (int, int) -> int,
                    o2: nat, x: int, z: int, w: nat, h: nat)
    requires o2 == o + |Rows(f, x - 1, z - 1, w + 2, h + 2)| && Holds(s, o2, f2, x - 1, z - 1, w + 2, h + 2)
    ensures HasSecond(Rewrite(s, o, f, g, x, z, w, h), o2, f2)
  {
  }

  lemma FirstThere(s: seq<int>, o: nat, f: (int, int) -> int, g: (int, int) -> int, x: int, z: int, w: nat, h: nat)
    requires Holds(s, o, f, x - 1, z - 1, w + 2, h + 2)
    ensures HasParent(Rewrite(s, o, f, g, x, z, w, h))
  {
  }

  /** The loops of `mapHills`. */
  method MapHills(rule: (Nine, int, int, int) -> int, ghost f: (int, int) -> int, ghost f2: (int, int) -> int,
                  a: array<int>, o: nat, o2: nat, x: int, z: int, w: nat, h: nat)
    requires Holds(a[..], o, f, x - 1, z - 1, w + 2, h + 2) && o2 == o + |Rows(f, x - 1, z - 1, w + 2, h + 2)|
    requires Holds(a[..], o2, f2, x - 1, z - 1, w + 2, h + 2)
    modifies a
    ensures Holds(a[..], o, HillsFn(rule, f, f2), x, z, w, h) && a[..o] == old(a[..o])
  {
    ghost var g := HillsFn(rule, f, f2);
    FirstThere(a[..], o, f, g, x, z, w, h);
    SecondThere(a[..], o, f, f2, g, o2, x, z, w, h);
    ghost var r := Rewrite(a[..], o, f, g, x, z, w, h);
    HillsRewrite(rule, f2, a, r, o, o2, x, z, w, h);
  }

  method HillsRewrite(rule: (Nine, int, int, int) -> int, ghost f2: (int, int) -> int, a: array<int>, ghost r: Rewrite,
                      o: nat, o2: nat, x: int, z: int, w: nat, h: nat)
    requires r == Rewrite(a[..], o, r.f, HillsFn(rule, r.f, f2), x, z, w, h) && HasParent(r) && HasSecond(r, o2, f2)
    modifies a
    ensures Holds(a[..], o, r.g, x, z, w, h) && a[..o] == old(a[..o])
  {
    StartRewrite(r);
    HillsRows(rule, f2, a, r, o, o2, x, z, w, h);
    AllRewritten(a[..], r);
  }

  method HillsRows(rule: (Nine, int, int, int) -> int, ghost f2: (int, int) -> int, a: array<int>, ghost r: Rewrite,
                   o: nat, o2: nat, x: int, z: int, w: nat, h: nat)
    requires Fits(r, o, x, z, w) && r.h == h && Rewritten(a[..], r, 0, 0)
    requires r.g == HillsFn(rule, r.f, f2) && HasSecond(r, o2, f2)
    modifies a
    ensures Rewritten(a[..], r, h, 0)
  {
    var j := 0;
    while j < h
      invariant j <= h && Rewritten(a[..], r, j, 0)
    {
      HillsRow(rule, f2, a, r, o, o2, x, z, w, j);
      NextRow(a[..], r, j);
      j := j + 1;
    }
  }

  method HillsRow(rule: (Nine, int, int, int) -> int, ghost f2: (int, int) -> int, a: array<int>, ghost r: Rewrite,
                  o: nat, o2: nat, x: int, z: int, w: nat, j: nat)
    requires Fits(r, o, x, z, w) && r.g == HillsFn(rule, r.f, f2) && HasSecond(r, o2, f2) && j < r.h
    requires Rewritten(a[..], r, j, 0)
    modifies a
    ensures Rewritten(a[..], r, j, w)
  {
    var i := 0;
    while i < w
      invariant i <= w && Rewritten(a[..], r, j, i)
    {
      MakeHill(rule, f2, a, r, o, o2, x, z, w, i, j);
      i := i + 1;
    }
  }

  lemma HillsFnAt(rule: (Nine, int, int, int) -> int, r: Rewrite, f2: (int, int) -> int, x: int, z: int, v: Nine,
                  b11: int)
    requires r.g == HillsFn(rule, r.f, f2) && v == Around(r.f, x, z) && b11 == f2(x, z)
    ensures r.g(x, z) == rule(v, b11, x, z)
  {
  }

  method MakeHill(rule: (Nine, int, int, int) -> int, ghost f2: (int, int) -> int, a: array<int>, ghost r: Rewrite,
                  o: nat, o2: nat, x: int, z: int, w: nat, i: nat, j: nat)
    requires Fits(r, o, x, z, w) && r.g == HillsFn(rule, r.f, f2) && HasSecond(r, o2, f2)
    requires Rewritten(a[..], r, j, i) && i < w && j < r.h
    modifies a
    ensures Rewritten(a[..], r, j, i + 1)
  {
    var b11 := ReadSecond(a, r, o2, f2, x, z, w, i, j);
    PutHill(rule, f2, a, r, o, x, z, w, i, j, b11);
  }

  method PutHill(rule: (Nine, int, int, int) -> int, ghost f2: (int, int) -> int, a: array<int>, ghost r: Rewrite,
                 o: nat, x: int, z: int, w: nat, i: nat, j: nat, b11: int)
    requires Fits(r, o, x, z, w) && r.g == HillsFn(rule, r.f, f2) && b11 == f2(x + i, z + j)
    requires Rewritten(a[..], r, j, i) && i < w && j < r.h
    modifies a
    ensures Rewritten(a[..], r, j, i + 1)
  {
    var v := ReadNine(a, r, o, x, z, w, i, j);
    HillsFnAt(rule, r, f2, x + i, z + j, v, b11);
    Put(a, r, o, x, z, w, i, j, rule(v, b11, x + i, z + j));
  }

  /** The cell of the second parent under the cursor. */
  method ReadSecond(a: array<int>, ghost r: Rewrite, o2: nat, ghost f2: (int, int) -> int, ghost x: int, ghost z: int,
                    w: nat, i: nat, j: nat)
    returns (v: int)
    requires r.w == w && r.x == x && r.z == z && i < w && j < r.h
    requires Rewritten(a[..], r, j, i) && HasSecond(r, o2, f2)
    ensures v == f2(x + i, z + j)
  {
    WithinArea(r.f, r.x, r.z, i, j, w, r.h);
    Beyond(r.s, a[..], r.o, r.g, r.x, r.z, w, j, i, o2, f2, r.x - 1, r.z - 1, w + 2, r.h + 2, i + 1, j + 1);
    v := a[o2 + (j + 1) * (w + 2) + (i + 1)];
  }

  lemma WithinArea(f: (int, int) -> int, x: int, z: int, i: nat, j: nat, w: nat, h: nat)
    requires i < w && j < h
    ensures j * w + i <= |Rows(f, x - 1, z - 1, w + 2, h + 2)|
  {
    RowsLength(f, x - 1, z - 1, w + 2, h + 2);
    MulMonotone(j + 1, h + 2, w, w + 2);
    Distribute(j, 1, w);
  }
}
