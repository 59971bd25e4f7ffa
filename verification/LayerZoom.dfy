/** The zoom layers of layers.c: the parent's rectangle is expanded to two by two
    blocks in the memory behind it, and a window of the result is moved to the front. */
module LayerZoom {
  import opened Arith
  import opened Grid
  import opened Buffer
  import opened LayerRules

  /** Where the parent's rectangle (x, z, w, h) lies, and its expansion behind it. */
  datatype Parent = Parent(o: nat, buf: nat, x: int, z: int, w: nat, h: nat)

  /** Row r of the expanded parent is correct in all but its last column. */
  ghost predicate RowDone(s: seq<int>, p: Parent, f: (int, int) -> int, r: nat)
    requires p.w > 0
  {
    && 0 <= r * (2 * p.w) && p.buf + r * (2 * p.w) + 2 * p.w <= |s|
    && s[p.buf + r * (2 * p.w)..p.buf + r * (2 * p.w) + (2 * p.w - 1)] == Row(f, p.x * 2, p.z * 2 + r, 2 * p.w - 1)
  }

  /** The block made from possibly wrong right or lower parents: its cells are right as
      far as their own parents are. */
  ghost predicate GoodBlock(b: Block, f: (int, int) -> int, x: int, z: int, right: bool, below: bool) {
    && b.a == f(x, z) && (right ==> b.b == f(x + 1, z)) && (below ==> b.c == f(x, z + 1))
    && (right && below ==> b.d == f(x + 1, z + 1))
  }

  lemma BlockIsGood(g: (Corners, int, int) -> Block, f: (int, int) -> int, px: int, pz: int, v: Corners,
                    right: bool, below: bool)
    requires Local(g) && v.v00 == f(px, pz) && (right ==> v.v10 == f(px + 1, pz)) && (below ==> v.v01 == f(px, pz + 1))
    requires right && below ==> v.v11 == f(px + 1, pz + 1)
    ensures GoodBlock(g(v, px * 2, pz * 2), ZoomFn(g, f), px * 2, pz * 2, right, below)
  {
    var u := CornersOf(f, px, pz);
    assert SameEdges(g(v, px * 2, pz * 2), g(u, px * 2, pz * 2), v, u);
    PartsOfBlock(g, f, px, pz);
  }

  lemma PartsOfBlock(g: (Corners, int, int) -> Block, f: (int, int) -> int, px: int, pz: int)
    ensures var b := g(CornersOf(f, px, pz), px * 2, pz * 2);
      GoodBlock(b, ZoomFn(g, f), px * 2, pz * 2, true, true)
  {
    assert (px * 2) / 2 == px && (px * 2 + 1) / 2 == px && (pz * 2) / 2 == pz && (pz * 2 + 1) / 2 == pz;
  }

  /** The memory with a block written at idx. */
  function Written(s: seq<int>, idx: nat, newW: nat, b: Block): (r: seq<int>)
    requires newW >= 2 && idx + newW + 1 < |s|
  {
    s[idx := b.a][idx + 1 := b.b][idx + newW := b.c][idx + newW + 1 := b.d]
  }

  method WriteBlock(a: array<int>, idx: nat, newW: nat, b: Block, ghost t: seq<int>)
    requires newW >= 2 && idx + newW + 1 < a.Length && t == Written(a[..], idx, newW, b)
    modifies a
    ensures a[..] == t
  {
    a[idx] := b.a;
    a[idx + newW] := b.c;
    a[idx + 1] := b.b;
    a[idx + newW + 1] := b.d;
  }

  /** Of the row that starts at k, the cells of the first i blocks are there; of the
      last block only the first cell counts. */
  ghost predicate Progress(s: seq<int>, k: nat, f: (int, int) -> int, x: int, z: int, pW: nat, i: nat)
    requires i <= pW
  {
    var n := if i < pW then 2 * i else if i == 0 then 0 else 2 * i - 1;
    k + 2 * pW <= |s| && s[k..k + n] == Row(f, x, z, n)
  }

  lemma ProgressStep(s: seq<int>, s': seq<int>, k: nat, f: (int, int) -> int, x: int, z: int, pW: nat, i: nat)
    requires i < pW && Progress(s, k, f, x, z, pW, i) && |s'| == |s| && s'[k..k + 2 * i] == s[k..k + 2 * i]
    requires s'[k + 2 * i] == f(x + 2 * i, z) && (i + 1 < pW ==> s'[k + 2 * i + 1] == f(x + 2 * i + 1, z))
    ensures Progress(s', k, f, x, z, pW, i + 1)
  {
    var row := Row(f, x, z, 2 * i);
    assert Row(f, x, z, 2 * i + 1) == row + [f(x + 2 * i, z)];
    assert s'[k..k + (2 * i + 1)] == s'[k..k + 2 * i] + [s'[k + 2 * i]];
    if i + 1 < pW {
      assert Row(f, x, z, 2 * i + 2) == Row(f, x, z, 2 * i + 1) + [f(x + 2 * i + 1, z)];
      assert s'[k..k + (2 * i + 2)] == s'[k..k + (2 * i + 1)] + [s'[k + 2 * i + 1]];
    }
  }

  /** Both rows of a block row while it is being written. */
  ghost predicate RowsProgress(s: seq<int>, k: nat, f: (int, int) -> int, x: int, z: int, pW: nat, below: bool, i: nat)
    requires i <= pW
  {
    Progress(s, k, f, x, z, pW, i) && (below ==> Progress(s, k + 2 * pW, f, x, z + 1, pW, i))
  }

  lemma BlockStep(s: seq<int>, s': seq<int>, k: nat, f: (int, int) -> int, x: int, z: int, pW: nat, below: bool,
                  i: nat, b: Block)
    requires i < pW && RowsProgress(s, k, f, x, z, pW, below, i) && k + 4 * pW <= |s|
    requires GoodBlock(b, f, x + 2 * i, z, i + 1 < pW, below) && s' == Written(s, k + 2 * i, 2 * pW, b)
    ensures RowsProgress(s', k, f, x, z, pW, below, i + 1)
  {
    var newW := 2 * pW;
    assert s'[k..k + 2 * i] == s[k..k + 2 * i];
    ProgressStep(s, s', k, f, x, z, pW, i);
    if below {
      assert s'[k + newW..k + newW + 2 * i] == s[k + newW..k + newW + 2 * i];
      ProgressStep(s, s', k + newW, f, x, z + 1, pW, i);
    }
  }

  lemma WrittenBehind(s: seq<int>, idx: nat, newW: nat, b: Block, k: nat)
    requires newW >= 2 && idx + newW + 1 < |s| && k <= idx
    ensures |Written(s, idx, newW, b)| == |s| && Written(s, idx, newW, b)[..k] == s[..k]
  {
  }

  /** The memory of a zoom: the parent map f in its place, and room behind it. */
  ghost predicate Layout(s: seq<int>, p: Parent, f: (int, int) -> int) {
    && p.w > 0 && p.h > 0 && p.buf == p.o + p.h * p.w && p.buf + 4 * (p.h * p.w) <= |s|
    && Holds(s, p.o, f, p.x, p.z, p.w, p.h)
  }

  lemma LayoutKept(s: seq<int>, s': seq<int>, k: nat, p: Parent, f: (int, int) -> int)
    requires Layout(s, p, f) && |s'| == |s| && p.buf <= k <= |s| && s'[..k] == s[..k]
    ensures Layout(s', p, f)
  {
    RowsLength(f, p.x, p.z, p.w, p.h);
    assert s'[p.o..p.buf] == s'[..k][p.o..p.buf];
    assert s[p.o..p.buf] == s[..k][p.o..p.buf];
    HoldsIn(s, s', p.o, p.h * p.w, f, p.x, p.z, p.w, p.h);
  }

  /** Reads of the next column, or the next row, stay in the memory; inside the parent
      they are parent cells. */
  lemma ParentRead(s: seq<int>, p: Parent, f: (int, int) -> int, i: nat, j: nat)
    requires Layout(s, p, f) && i <= p.w && j <= p.h
    ensures 0 <= j * p.w && p.o + i + j * p.w < |s|
    ensures i < p.w && j < p.h ==> s[p.o + i + j * p.w] == f(p.x + i, p.z + j)
  {
    MulMonotone(j, p.h, p.w, p.w);
    MulMonotone(1, p.h, p.w, p.w);
    if i < p.w && j < p.h { HoldsAt(s, p.o, f, p.x, p.z, p.w, p.h, i, j); }
  }

  lemma BlockRowFits(pW: nat, pH: nat, j: nat)
    requires j < pH
    ensures 0 <= (2 * j) * (2 * pW) && (2 * j) * (2 * pW) + 4 * pW <= 4 * (pH * pW)
    ensures (2 * j + 1) * (2 * pW) == (2 * j) * (2 * pW) + 2 * pW
  {
    MulMonotone(j + 1, pH, pW, pW);
    Distribute(j, 1, pW);
    Distribute(2 * j, 1, 2 * pW);
    MulAssoc(2, j, 2 * pW);
    assert j * (2 * pW) == 2 * (j * pW);
  }

  method ReadCell(a: array<int>, p: Parent, ghost f: (int, int) -> int, i: nat, j: nat) returns (v: int)
    requires Layout(a[..], p, f) && i <= p.w && j <= p.h
    ensures i < p.w && j < p.h ==> v == f(p.x + i, p.z + j)
  {
    ParentRead(a[..], p, f, i, j);
    v := a[p.o + i + j * p.w];
  }

  /** The memory while row j of the parent is expanded into the rows at k. */
  ghost predicate Expanding(b: seq<int>, s: seq<int>, p: Parent, k: nat, g: (Corners, int, int) -> Block,
                            f: (int, int) -> int, j: nat, i: nat)
  {
    && i <= p.w && j < p.h && |b| == |s| && p.buf <= k && k + 4 * p.w <= |b| && b[..k] == s[..k]
    && Layout(b, p, f)
    && RowsProgress(b, k, ZoomFn(g, f), p.x * 2, (p.z + j) * 2, p.w, j + 1 < p.h, i)
  }

  /** The corners of block i of row j, as far as they are parent cells. */
  ghost predicate Read(v: Corners, f: (int, int) -> int, p: Parent, i: nat, j: nat) {
    LeftRead(v.v00, v.v01, f, p, i, j) && LeftRead(v.v10, v.v11, f, p, i + 1, j)
  }

  /** The two cells in column i, as far as they are parent cells. */
  ghost predicate LeftRead(v0: int, v1: int, f: (int, int) -> int, p: Parent, i: nat, j: nat) {
    i < p.w ==> v0 == f(p.x + i, p.z + j) && (j + 1 < p.h ==> v1 == f(p.x + i, p.z + j + 1))
  }

  method ReadColumn(a: array<int>, p: Parent, ghost f: (int, int) -> int, i: nat, j: nat) returns (v0: int, v1: int)
    requires Layout(a[..], p, f) && i <= p.w && j < p.h
    ensures LeftRead(v0, v1, f, p, i, j)
  {
    v0 := ReadCell(a, p, f, i, j);
    v1 := ReadCell(a, p, f, i, j + 1);
  }

  /** The inner loop over one row of the parent. */
  method ExpandRow(g: (Corners, int, int) -> Block, ghost f: (int, int) -> int, a: array<int>, p: Parent, j: nat,
                   k: nat, ghost s: seq<int>)
    requires Local(g) && Expanding(a[..], s, p, k, g, f, j, 0)
    modifies a
    ensures Expanding(a[..], s, p, k, g, f, j, p.w)
  {
    var v00, v01 := ReadColumn(a, p, f, 0, j);
    var i: nat := 0;
    while i < p.w
      invariant i <= p.w && LeftRead(v00, v01, f, p, i, j)
      invariant Expanding(a[..], s, p, k, g, f, j, i)
    {
      var v10, v11 := ReadColumn(a, p, f, i + 1, j);
      ExpandBlock(g, f, a, p, j, k, i, Corners(v00, v10, v01, v11), s);
      v00, v01 := v10, v11;
      i := i + 1;
    }
  }

  method ExpandBlock(g: (Corners, int, int) -> Block, ghost f: (int, int) -> int, a: array<int>, p: Parent, j: nat,
                     k: nat, i: nat, v: Corners, ghost s: seq<int>)
    requires Local(g) && Expanding(a[..], s, p, k, g, f, j, i) && i < p.w && Read(v, f, p, i, j)
    modifies a
    ensures Expanding(a[..], s, p, k, g, f, j, i + 1)
  {
    var b := g(v, (p.x + i) * 2, (p.z + j) * 2);
    ghost var t := BlockExpanded(a[..], s, p, k, g, f, j, i, v, b);
    WriteBlock(a, k + 2 * i, 2 * p.w, b, t);
  }

  lemma BlockExpanded(b: seq<int>, s: seq<int>, p: Parent, k: nat, g: (Corners, int, int) -> Block,
                      f: (int, int) -> int, j: nat, i: nat, v: Corners, e: Block) returns (t: seq<int>)
    requires Local(g) && Expanding(b, s, p, k, g, f, j, i) && i < p.w && Read(v, f, p, i, j)
    requires e == g(v, (p.x + i) * 2, (p.z + j) * 2)
    ensures t == Written(b, k + 2 * i, 2 * p.w, e)
    ensures Expanding(t, s, p, k, g, f, j, i + 1)
  {
    t := Written(b, k + 2 * i, 2 * p.w, e);
    WrittenBehind(b, k + 2 * i, 2 * p.w, e, k);
    LayoutKept(b, t, k, p, f);
    BlockProgress(b, t, k, g, f, p, j, i, v, e);
  }

  lemma BlockProgress(b: seq<int>, t: seq<int>, k: nat, g: (Corners, int, int) -> Block, f: (int, int) -> int,
                      p: Parent, j: nat, i: nat, v: Corners, e: Block)
    requires Local(g) && i < p.w && j < p.h && k + 4 * p.w <= |b| && t == Written(b, k + 2 * i, 2 * p.w, e)
    requires RowsProgress(b, k, ZoomFn(g, f), p.x * 2, (p.z + j) * 2, p.w, j + 1 < p.h, i)
    requires Read(v, f, p, i, j) && e == g(v, (p.x + i) * 2, (p.z + j) * 2)
    ensures RowsProgress(t, k, ZoomFn(g, f), p.x * 2, (p.z + j) * 2, p.w, j + 1 < p.h, i + 1)
  {
    BlockIsGood(g, f, p.x + i, p.z + j, v, i + 1 < p.w, j + 1 < p.h);
    assert (p.x + i) * 2 == p.x * 2 + 2 * i;
    BlockStep(b, t, k, ZoomFn(g, f), p.x * 2, (p.z + j) * 2, p.w, j + 1 < p.h, i, e);
  }

  // ------------------------------------------------------------- all rows and the window

  /** The first n rows of the expansion are correct but for the last column. */
  ghost predicate Window(s: seq<int>, p: Parent, f: (int, int) -> int, n: nat)
    requires p.w > 0
  {
    forall r: nat | r < n :: RowDone(s, p, f, r)
  }

  lemma RowKept(s: seq<int>, s': seq<int>, k: nat, p: Parent, f: (int, int) -> int, r: nat, n: nat)
    requires p.w > 0 && RowDone(s, p, f, r) && r < n && k == p.buf + n * (2 * p.w)
    requires k <= |s| && |s'| == |s| && s'[..k] == s[..k]
    ensures RowDone(s', p, f, r)
  {
    MulMonotone(r + 1, n, 2 * p.w, 2 * p.w);
    Distribute(r, 1, 2 * p.w);
    var q := p.buf + r * (2 * p.w);
    assert s'[q..q + (2 * p.w - 1)] == s'[..k][q..q + (2 * p.w - 1)];
    assert s[q..q + (2 * p.w - 1)] == s[..k][q..q + (2 * p.w - 1)];
  }

  /** Rows that the expansion of j parent rows makes correct. */
  function RowsAfter(j: nat, pH: nat): nat {
    if j < pH || j == 0 then 2 * j else 2 * j - 1
  }

  lemma WindowGrows(s: seq<int>, s': seq<int>, k: nat, p: Parent, f: (int, int) -> int, j: nat)
    requires p.w > 0 && j < p.h && Window(s, p, f, 2 * j) && k == p.buf + (2 * j) * (2 * p.w)
    requires k <= |s| && |s'| == |s| && s'[..k] == s[..k] && k + 4 * p.w <= |s|
    requires RowsProgress(s', k, f, p.x * 2, p.z * 2 + 2 * j, p.w, j + 1 < p.h, p.w)
    ensures Window(s', p, f, RowsAfter(j + 1, p.h))
  {
    Distribute(2 * j, 1, 2 * p.w);
    forall r: nat | r < RowsAfter(j + 1, p.h) ensures RowDone(s', p, f, r) {
      if r < 2 * j { RowKept(s, s', k, p, f, r, 2 * j); }
    }
  }

  /** The outer loop over the parent's rows. */
  method Expand(g: (Corners, int, int) -> Block, ghost f: (int, int) -> int, a: array<int>, p: Parent)
    requires Local(g) && Layout(a[..], p, f)
    modifies a
    ensures Window(a[..], p, ZoomFn(g, f), 2 * p.h - 1) && a[..p.o] == old(a[..p.o])
  {
    ghost var s := a[..];
    var j := 0;
    while j < p.h
      invariant j <= p.h && Layout(a[..], p, f) && a[..p.o] == s[..p.o]
      invariant Window(a[..], p, ZoomFn(g, f), RowsAfter(j, p.h))
    {
      BlockRowFits(p.w, p.h, j);
      var k := p.buf + (2 * j) * (2 * p.w);
      ghost var before := a[..];
      NothingExpanded(before, k, ZoomFn(g, f), p.x * 2, (p.z + j) * 2, p.w, j + 1 < p.h);
      ExpandRow(g, f, a, p, j, k, before);
      assert (p.z + j) * 2 == p.z * 2 + 2 * j;
      WindowGrows(before, a[..], k, p, ZoomFn(g, f), j);
      ShorterPrefix(before, a[..], p.o, k);
      j := j + 1;
    }
  }

  lemma NothingExpanded(s: seq<int>, k: nat, f: (int, int) -> int, x: int, z: int, pW: nat, below: bool)
    requires k + 4 * pW <= |s|
    ensures RowsProgress(s, k, f, x, z, pW, below, 0)
  {
  }

  lemma {:induction false} RowSlice(f: (int, int) -> int, x: int, z: int, n: nat, d: nat, w: nat)
    requires d + w <= n
    ensures Row(f, x, z, n)[d..d + w] == Row(f, x + d, z, w)
    decreases w
  {
    if w > 0 {
      RowSlice(f, x, z, n, d, w - 1);
      RowAt(f, x, z, n, d + w - 1);
      SliceEnd(Row(f, x, z, n), d, d + w - 1);
    }
  }

  lemma SliceEnd(s: seq<int>, a: nat, b: nat)
    requires a <= b < |s|
    ensures s[a..b + 1] == s[a..b] + [s[b]]
  {
  }

  /** The window (x, z, w, h) lies in the correct part of the expansion. */
  ghost predicate Inside(p: Parent, x: int, z: int, w: nat, h: nat) {
    && p.w > 0 && p.buf == p.o + p.h * p.w
    && p.x * 2 <= x && x + w <= p.x * 2 + 2 * p.w - 1 && p.z * 2 <= z && z + h <= p.z * 2 + 2 * p.h - 1
  }

  /** Where row j of the window lies in the expansion. */
  function Source(p: Parent, x: int, z: int, j: nat): int {
    p.buf + (z + j - p.z * 2) * (2 * p.w) + (x - p.x * 2)
  }

  /** It is behind everything that was moved before. */
  lemma SourceBehind(p: Parent, x: int, z: int, w: nat, h: nat, j: nat)
    requires Inside(p, x, z, w, h)
    ensures 0 <= j * w && 0 <= (z + j - p.z * 2) * (2 * p.w) && p.o + j * w <= Source(p, x, z, j)
  {
    MulMonotone(j, z + j - p.z * 2, w, 2 * p.w);
    MulMonotone(0, p.h, 0, p.w);
  }

  /** The cells from which row j of the window is moved. */
  lemma SourceRow(s: seq<int>, b: seq<int>, p: Parent, f: (int, int) -> int, x: int, z: int, w: nat, h: nat, j: nat,
                  r: nat)
    requires Inside(p, x, z, w, h) && r == z + j - p.z * 2 && RowDone(s, p, f, r)
    requires Replaced(b, s, p.o, f, x, z, w, j, 0)
    ensures var src := Source(p, x, z, j);
      0 <= p.o + j * w <= src && src + w <= |b| && b[src..src + w] == Row(f, x, z + j, w)
  {
    var src, d := Source(p, x, z, j), x - p.x * 2;
    SourceBehind(p, x, z, w, h, j);
    FilledLength(f, x, z, w, j, 0);
    SpliceEnds(s, p.o, Filled(f, x, z, w, j, 0));
    SharedTail(s, b, p.o + j * w, src, src + w);
    RowPart(s, p, f, r, d, w);
  }

  /** A part of a row of the expansion. */
  lemma RowPart(s: seq<int>, p: Parent, f: (int, int) -> int, r: nat, d: nat, w: nat)
    requires p.w > 0 && RowDone(s, p, f, r) && d + w <= 2 * p.w - 1
    ensures var k := p.buf + r * (2 * p.w) + d;
      0 <= k && k + w <= |s| && s[k..k + w] == Row(f, p.x * 2 + d, p.z * 2 + r, w)
  {
    SliceOfSlice(s, p.buf + r * (2 * p.w), 2 * p.w - 1, d, w);
    RowSlice(f, p.x * 2, p.z * 2 + r, 2 * p.w - 1, d, w);
  }

  /** Moves row j of the result to its place. */
  method MoveRow(a: array<int>, o: nat, src: nat, w: nat, ghost s: seq<int>, ghost f: (int, int) -> int, ghost x: int,
                 ghost z: int, j: nat)
    requires Replaced(a[..], s, o, f, x, z, w, j, 0)
    requires src + w <= a.Length && a[src..src + w] == Row(f, x, z + j, w) && 0 <= o + j * w <= src
    modifies a
    ensures Replaced(a[..], s, o, f, x, z, w, j + 1, 0)
  {
    FilledLength(f, x, z, w, j, 0);
    FilledRow(f, x, z, w, j);
    FilledRow(f, x, z, w, j + 1);
    SpliceMany(s, o, Rows(f, x, z, w, j), Row(f, x, z + j, w));
    Move(a, o + j * w, src, w);
  }

  /** One round of the last loop. */
  method FetchRow(a: array<int>, p: Parent, ghost f: (int, int) -> int, x: int, z: int, w: nat, ghost h: nat, j: nat,
                  ghost s: seq<int>)
    requires Inside(p, x, z, w, h) && j < h && Window(s, p, f, 2 * p.h - 1) && Replaced(a[..], s, p.o, f, x, z, w, j, 0)
    modifies a
    ensures Replaced(a[..], s, p.o, f, x, z, w, j + 1, 0)
  {
    ghost var r := z + j - p.z * 2;
    assert RowDone(s, p, f, r);
    SourceRow(s, a[..], p, f, x, z, w, h, j, r);
    MoveRow(a, p.o, Source(p, x, z, j), w, s, f, x, z, j);
  }

  /** The last loop: moves the window of w by h cells at (x, z) to the front. */
  method MoveWindow(a: array<int>, p: Parent, ghost f: (int, int) -> int, x: int, z: int, w: nat, h: nat)
    requires Inside(p, x, z, w, h) && p.o <= a.Length && Window(a[..], p, f, 2 * p.h - 1)
    modifies a
    ensures Holds(a[..], p.o, f, x, z, w, h) && a[..p.o] == old(a[..p.o])
  {
    ghost var s := a[..];
    var j := 0;
    StartReplacing(s, p.o, f, x, z, w);
    while j < h
      invariant j <= h && Replaced(a[..], s, p.o, f, x, z, w, j, 0)
    {
      FetchRow(a, p, f, x, z, w, h, j, s);
      j := j + 1;
    }
    AllReplaced(a[..], s, p.o, f, x, z, w, h);
  }

  /** Width of the parent rectangle, from x >> 1 to (x + w) >> 1. */
  function ParentSpan(x: int, w: nat): (n: nat)
    ensures 1 <= n <= (w + 3) / 2 && x % 2 + w <= 2 * n - 1
  {
    (x + w) / 2 - x / 2 + 1
  }

  /** The parent rectangle that a zoom at o asks for. */
  function ParentOf(o: nat, x: int, z: int, w: nat, h: nat): Parent {
    var pW, pH := ParentSpan(x, w), ParentSpan(z, h);
    Parent(o, o + pH * pW, x / 2, z / 2, pW, pH)
  }

  lemma ParentSuffices(o: nat, x: int, z: int, w: nat, h: nat)
    ensures Inside(ParentOf(o, x, z, w, h), x, z, w, h)
  {
    assert x / 2 * 2 == x - x % 2 && z / 2 * 2 == z - z % 2;
  }

  /** `mapZoom` and `mapZoomFuzzy` after their parent was generated. */
  method MapZoom(g: (Corners, int, int) -> Block, ghost f: (int, int) -> int, a: array<int>, o: nat, x: int, z: int,
                 w: nat, h: nat)
    requires Local(g) && Layout(a[..], ParentOf(o, x, z, w, h), f)
    modifies a
    ensures Holds(a[..], o, ZoomFn(g, f), x, z, w, h) && a[..o] == old(a[..o])
  {
    var p := ParentOf(o, x, z, w, h);
    Expand(g, f, a, p);
    ParentSuffices(o, x, z, w, h);
    MoveWindow(a, p, ZoomFn(g, f), x, z, w, h);
  }
}
