/** The buffered biome generator (biomenoise.c): one lookup for every cell of a volume, in
    which each lookup takes the node found by the one before as its hint. */
module BiomeVolume {
  import opened Arith
  import opened BiomeTree

  /** The climate at a position, for the proofs any small point. */
  type Climate = (int, int, int) -> Point

  ghost predicate Searchable(t: Tree) {
    t.Tables() && WellFormed(t, 0, 0, false) && t.steps[0] != 0
  }

  ghost predicate SmallClimate(c: Climate) {
    forall x, y, z :: SmallPoint(c(x, y, z))
  }

  ghost predicate SmallPoints(pts: seq<Point>) {
    forall k :: 0 <= k < |pts| ==> SmallPoint(pts[k])
  }

  /** The hint of the next lookup. */
  function LastOf(nodes: seq<nat>): nat {
    if nodes == [] then 0 else nodes[|nodes| - 1]
  }

  function HintOf(opt: bool, node: nat): Hint {
    if opt then FromNode(node) else NoHint
  }

  /** The nodes found for a list of points, one after the other; with `opt` each lookup
      gets the node before as hint, and the first the node 0. */
  ghost function NodesOf(t: Tree, opt: bool, pts: seq<Point>): (nodes: seq<nat>)
    requires Searchable(t) && SmallPoints(pts)
    ensures |nodes| == |pts| && LastOf(nodes) < t.Len() && forall k :: 0 <= k < |nodes| ==> nodes[k] < t.Len()
  {
    if pts == [] then []
    else
      var before, np := NodesOf(t, opt, pts[..|pts| - 1]), pts[|pts| - 1];
      FoundIsNearest(np, t, HintOf(opt, LastOf(before)));
      before + [Found(np, t, HintOf(opt, LastOf(before)))]
  }

  function BiomeOf(t: Tree, node: nat): nat
    requires node < t.Len()
  {
    (t.nodes[node] / TWO48) % 256
  }

  // ---------------------------------------------------------------- what the hints do

  /** Some leaf is strictly nearer than the box of the root. */
  ghost predicate LeavesRoot(np: Point, t: Tree)
    requires Searchable(t)
  {
    !AllFarther(np, t, Leaves(t, 0, 0, false), Dist(np, t, 0))
  }

  lemma {:induction false} NodesBefore(t: Tree, opt: bool, pts: seq<Point>, n: nat)
    requires Searchable(t) && SmallPoints(pts) && n <= |pts|
    ensures NodesOf(t, opt, pts)[..n] == NodesOf(t, opt, pts[..n])
    decreases |pts|
  {
    if n < |pts| {
      var before := pts[..|pts| - 1];
      NodesBefore(t, opt, before, n);
      assert before[..n] == pts[..n];
      assert NodesOf(t, opt, pts)[..n] == NodesOf(t, opt, before)[..n];
    } else {
      assert pts[..n] == pts;
    }
  }

  /** The hint 0 stays the root until some point has a leaf that is nearer than the root's
      box; from this point on every lookup finds a nearest leaf. */
  lemma {:induction false} HintsSettle(t: Tree, pts: seq<Point>)
    requires Searchable(t) && SmallPoints(pts) && pts != [] && 0 !in Leaves(t, 0, 0, false)
    ensures var last, node := pts[|pts| - 1], LastOf(NodesOf(t, true, pts));
      if exists i :: 0 <= i < |pts| && LeavesRoot(pts[i], t) then NearestLeaf(last, t, node) else node == 0
    decreases |pts|
  {
    var before, last := pts[..|pts| - 1], pts[|pts| - 1];
    var hint := LastOf(NodesOf(t, true, before));
    FoundIsNearest(last, t, FromNode(hint));
    if before != [] {
      HintsSettle(t, before);
      assert forall i :: 0 <= i < |before| ==> pts[i] == before[i];
    }
    if exists i :: 0 <= i < |before| && LeavesRoot(before[i], t) {
      LeafHintIsHarmless(last, t, hint);
      var i :| 0 <= i < |before| && LeavesRoot(before[i], t);
      assert pts[i] == before[i];
    } else {
      ZeroHint(last, t);
      assert LeavesRoot(last, t) <==> NearestLeaf(last, t, LastOf(NodesOf(t, true, pts)));
    }
  }

  /** So a cell of the volume gets a nearest leaf exactly if some cell up to it has a leaf
      nearer than the root's box. */
  lemma CellSettled(t: Tree, pts: seq<Point>, k: nat)
    requires Searchable(t) && SmallPoints(pts) && k < |pts| && 0 !in Leaves(t, 0, 0, false)
    ensures NearestLeaf(pts[k], t, NodesOf(t, true, pts)[k]) <==> exists i :: 0 <= i <= k && LeavesRoot(pts[i], t)
    ensures !NearestLeaf(pts[k], t, NodesOf(t, true, pts)[k]) ==> NodesOf(t, true, pts)[k] == 0
  {
    var upTo := pts[..k + 1];
    NodesBefore(t, true, pts, k + 1);
    HintsSettle(t, upTo);
    assert LastOf(NodesOf(t, true, upTo)) == NodesOf(t, true, pts)[k];
    if i :| 0 <= i <= k && LeavesRoot(pts[i], t) {
      assert upTo[i] == pts[i];
    }
  }

  /** Where it does, the distance is the one that a lookup without hint finds. */
  lemma SettledIsExact(t: Tree, pts: seq<Point>, k: nat)
    requires Searchable(t) && SmallPoints(pts) && k < |pts| && 0 !in Leaves(t, 0, 0, false)
    requires exists i :: 0 <= i <= k && LeavesRoot(pts[i], t)
    ensures Dist(pts[k], t, NodesOf(t, true, pts)[k]) == Dist(pts[k], t, NodesOf(t, false, pts)[k])
  {
    CellSettled(t, pts, k);
    NodesBefore(t, false, pts, k + 1);
    var upTo := pts[..k + 1];
    assert upTo[..k] == pts[..k];
    FoundIsNearest(pts[k], t, NoHint);
    assert NodesOf(t, false, pts)[k] == LastOf(NodesOf(t, false, upTo)) == Found(pts[k], t, NoHint);
    NearestIsUnique(pts[k], t, NodesOf(t, true, pts)[k], NodesOf(t, false, pts)[k]);
  }

  // ----------------------------------------------------------------------- the volume

  datatype Range = Range(scale: nat, x: int, y: int, z: int, sx: nat, sy: nat, sz: nat)
  {
    /** Cells at scales above 4 are sampled in their middle. */
    function Scale(): nat { if scale > 4 then scale / 4 else 1 }

    function X(i: nat): int { (x + i) * Scale() + Scale() / 2 }

    function Z(j: nat): int { (z + j) * Scale() + Scale() / 2 }
  }

  /** The first i points of row j of layer k. */
  function RowPoints(c: Climate, r: Range, k: nat, j: nat, i: nat): seq<Point> {
    if i == 0 then [] else RowPoints(c, r, k, j, i - 1) + [c(r.X(i - 1), r.y + k, r.Z(j))]
  }

  /** The first j rows of layer k. */
  function LayerPoints(c: Climate, r: Range, k: nat, j: nat): seq<Point> {
    if j == 0 then [] else LayerPoints(c, r, k, j - 1) + RowPoints(c, r, k, j - 1, r.sx)
  }

  /** The first k layers: the order in which the volume is filled. */
  function VolumePoints(c: Climate, r: Range, k: nat): seq<Point> {
    if k == 0 then [] else VolumePoints(c, r, k - 1) + LayerPoints(c, r, k - 1, r.sz)
  }

  lemma {:induction false} RowLength(c: Climate, r: Range, k: nat, j: nat, i: nat)
    ensures |RowPoints(c, r, k, j, i)| == i
  {
    if i > 0 { RowLength(c, r, k, j, i - 1); }
  }

  lemma {:induction false} LayerGrows(c: Climate, r: Range, k: nat, j: nat, j': nat)
    requires j <= j'
    ensures |LayerPoints(c, r, k, j)| <= |LayerPoints(c, r, k, j')|
    decreases j'
  {
    if j < j' { LayerGrows(c, r, k, j, j' - 1); }
  }

  lemma {:induction false} VolumeGrows(c: Climate, r: Range, k: nat, k': nat)
    requires k <= k'
    ensures |VolumePoints(c, r, k)| <= |VolumePoints(c, r, k')|
    decreases k'
  {
    if k < k' { VolumeGrows(c, r, k, k' - 1); }
  }

  /** The points before cell i of row j of layer k. */
  function PointsTo(c: Climate, r: Range, k: nat, j: nat, i: nat): seq<Point> {
    VolumePoints(c, r, k) + LayerPoints(c, r, k, j) + RowPoints(c, r, k, j, i)
  }

  lemma CellFits(c: Climate, r: Range, k: nat, j: nat, i: nat)
    requires i < r.sx && j < r.sz && k < r.sy
    ensures |PointsTo(c, r, k, j, i)| < |VolumePoints(c, r, r.sy)|
  {
    RowLength(c, r, k, j, i);
    RowLength(c, r, k, j, r.sx);
    LayerGrows(c, r, k, j + 1, r.sz);
    VolumeGrows(c, r, k + 1, r.sy);
  }

  lemma NextCell(c: Climate, r: Range, k: nat, j: nat, i: nat)
    ensures PointsTo(c, r, k, j, i + 1) == PointsTo(c, r, k, j, i) + [c(r.X(i), r.y + k, r.Z(j))]
  {
  }

  lemma NextRow(c: Climate, r: Range, k: nat, j: nat)
    ensures PointsTo(c, r, k, j, r.sx) == PointsTo(c, r, k, j + 1, 0)
  {
  }

  lemma NextLayer(c: Climate, r: Range, k: nat)
    ensures PointsTo(c, r, k, r.sz, 0) == PointsTo(c, r, k + 1, 0, 0) == VolumePoints(c, r, k + 1)
  {
  }

  lemma AllPoints(c: Climate, r: Range)
    ensures PointsTo(c, r, r.sy, 0, 0) == VolumePoints(c, r, r.sy)
  {
  }

  lemma {:induction false} LayerLength(c: Climate, r: Range, k: nat, j: nat)
    ensures 0 <= j * r.sx && |LayerPoints(c, r, k, j)| == j * r.sx
  {
    if j > 0 {
      LayerLength(c, r, k, j - 1);
      RowLength(c, r, k, j - 1, r.sx);
      Distribute(j - 1, 1, r.sx);
    }
  }

  /** The volume has the size that its buffer is given. */
  lemma {:induction false} VolumeLength(c: Climate, r: Range, k: nat)
    ensures 0 <= k * (r.sz * r.sx) && |VolumePoints(c, r, k)| == k * (r.sz * r.sx)
  {
    if k > 0 {
      VolumeLength(c, r, k - 1);
      LayerLength(c, r, k - 1, r.sz);
      Distribute(k - 1, 1, r.sz * r.sx);
    }
  }

  /** After the points pts: their biomes are written, and the hint is that of the next. */
  ghost predicate Written(t: Tree, out: seq<nat>, s: seq<nat>, opt: bool, pts: seq<Point>, dat: nat) {
    && Searchable(t) && SmallPoints(pts) && |pts| <= |out| == |s| && out[|pts|..] == s[|pts|..]
    && (forall n :: 0 <= n < |pts| ==> out[n] == BiomeOf(t, NodesOf(t, opt, pts)[n]))
    && (opt ==> dat == LastOf(NodesOf(t, opt, pts)))
  }

  lemma WrittenMore(t: Tree, out: seq<nat>, s: seq<nat>, opt: bool, pts: seq<Point>, dat: nat, np: Point, node: nat)
    requires Written(t, out, s, opt, pts, dat) && SmallPoint(np) && |pts| < |out|
    requires node < t.Len() && node == Found(np, t, HintOf(opt, dat))
    ensures Written(t, out[|pts| := BiomeOf(t, node)], s, opt, pts + [np], node)
  {
    assert (pts + [np])[..|pts|] == pts;
    assert NodesOf(t, opt, pts + [np]) == NodesOf(t, opt, pts) + [node];
    assert s[|pts|..][1..] == s[|pts| + 1..];
    assert out[|pts|..][1..] == out[|pts| + 1..];
  }

  /** One lookup, and its biome written behind the others. */
  method WriteCell(t: Tree, np: Point, out: array<nat>, at: nat, opt: bool, dat: nat, ghost pts: seq<Point>,
                   ghost s: seq<nat>) returns (dat': nat)
    requires Written(t, out[..], s, opt, pts, dat) && SmallPoint(np) && at == |pts| < out.Length
    requires dat < t.Len()
    modifies out
    ensures Written(t, out[..], s, opt, pts + [np], dat') && dat' < t.Len()
  {
    var idx, biome := ClimateToBiome(np, t, HintOf(opt, dat));
    WrittenMore(t, out[..], s, opt, pts, dat, np, idx);
    out[at] := biome;
    dat' := idx;
  }

  /** Cell i of row j of layer k. */
  method WriteNext(t: Tree, c: Climate, out: array<nat>, r: Range, k: nat, j: nat, i: nat, opt: bool, dat0: nat,
                   at: nat, ghost s: seq<nat>) returns (dat: nat)
    requires Written(t, out[..], s, opt, PointsTo(c, r, k, j, i), dat0) && dat0 < t.Len()
    requires at == |PointsTo(c, r, k, j, i)| < out.Length && SmallClimate(c)
    modifies out
    ensures Written(t, out[..], s, opt, PointsTo(c, r, k, j, i + 1), dat) && dat < t.Len()
    ensures at + 1 == |PointsTo(c, r, k, j, i + 1)|
  {
    NextCell(c, r, k, j, i);
    var np := c(r.X(i), r.y + k, r.Z(j));
    dat := WriteCell(t, np, out, at, opt, dat0, PointsTo(c, r, k, j, i), s);
  }

  /** The innermost loop, over one row. */
  method WriteRow(t: Tree, c: Climate, out: array<nat>, r: Range, k: nat, j: nat, opt: bool, dat0: nat, at0: nat,
                  ghost s: seq<nat>) returns (dat: nat, at: nat)
    requires Written(t, out[..], s, opt, PointsTo(c, r, k, j, 0), dat0) && dat0 < t.Len() && j < r.sz && k < r.sy
    requires at0 == |PointsTo(c, r, k, j, 0)| && |VolumePoints(c, r, r.sy)| <= out.Length && SmallClimate(c)
    modifies out
    ensures Written(t, out[..], s, opt, PointsTo(c, r, k, j + 1, 0), dat) && dat < t.Len()
    ensures at == |PointsTo(c, r, k, j + 1, 0)|
  {
    dat, at := dat0, at0;
    var i: nat := 0;
    while i < r.sx
      invariant i <= r.sx && dat < t.Len() && Written(t, out[..], s, opt, PointsTo(c, r, k, j, i), dat)
      invariant at == |PointsTo(c, r, k, j, i)|
    {
      CellFits(c, r, k, j, i);
      dat := WriteNext(t, c, out, r, k, j, i, opt, dat, at, s);
      i, at := i + 1, at + 1;
    }
    NextRow(c, r, k, j);
  }

  /** The loop over the rows of a layer. */
  method WriteLayer(t: Tree, c: Climate, out: array<nat>, r: Range, k: nat, opt: bool, dat0: nat, at0: nat,
                    ghost s: seq<nat>) returns (dat: nat, at: nat)
    requires Written(t, out[..], s, opt, PointsTo(c, r, k, 0, 0), dat0) && dat0 < t.Len() && k < r.sy
    requires at0 == |PointsTo(c, r, k, 0, 0)| && |VolumePoints(c, r, r.sy)| <= out.Length && SmallClimate(c)
    modifies out
    ensures Written(t, out[..], s, opt, PointsTo(c, r, k + 1, 0, 0), dat) && dat < t.Len()
    ensures at == |PointsTo(c, r, k + 1, 0, 0)|
  {
    dat, at := dat0, at0;
    var j: nat := 0;
    while j < r.sz
      invariant j <= r.sz && dat < t.Len() && Written(t, out[..], s, opt, PointsTo(c, r, k, j, 0), dat)
      invariant at == |PointsTo(c, r, k, j, 0)|
    {
      dat, at := WriteRow(t, c, out, r, k, j, opt, dat, at, s);
      j := j + 1;
    }
    NextLayer(c, r, k);
  }

  /** `genBiomeNoise3D`: the cells of the volume in order; with `opt` the hint is carried
      from cell to cell, starting at 0. */
  method GenBiomeNoise3D(t: Tree, c: Climate, out: array<nat>, r: Range, opt: bool)
    requires Searchable(t) && SmallClimate(c) && |VolumePoints(c, r, r.sy)| <= out.Length
    modifies out
    ensures var pts := VolumePoints(c, r, r.sy);
      && SmallPoints(pts)
      && (forall n :: 0 <= n < |pts| ==> out[n] == BiomeOf(t, NodesOf(t, opt, pts)[n]))
      && out[|pts|..] == old(out[|VolumePoints(c, r, r.sy)|..])
  {
    ghost var s := out[..];
    var dat: nat, at: nat, k: nat := 0, 0, 0;
    while k < r.sy
      invariant k <= r.sy && dat < t.Len() && Written(t, out[..], s, opt, PointsTo(c, r, k, 0, 0), dat)
      invariant at == |PointsTo(c, r, k, 0, 0)|
    {
      dat, at := WriteLayer(t, c, out, r, k, opt, dat, at, s);
      k := k + 1;
    }
    AllPoints(c, r);
  }
}
