/** The nearest-biome search of Minecraft 1.18+ (biomenoise.c): branch and bound over
    a packed tree of climate boxes, against a plain scan of all its leaves. */
module BiomeTree {
  import opened Arith

  const DIMS := 6
  const LIMIT := 0x2000_0000

  /** Byte i of a word, counting from the low end. */
  function Byte(word: nat, i: nat): nat {
    if i == 0 then word % 256 else Byte(word / 256, i - 1)
  }

  /** The packed tables: `steps` ends with 0, `param` holds the (low, high) bounds, and
      a node word is six box indices of one byte each under a 16-bit field, which is
      the first child of an inner node and carries the biome of a leaf. */
  datatype Tree = Tree(steps: seq<nat>, param: seq<(int, int)>, nodes: seq<nat>, order: nat)
  {
    function Len(): nat { |nodes| }

    function BoxIndex(idx: nat, i: nat): nat
      requires idx < Len() && i < DIMS
    {
      Byte(nodes[idx], i)
    }

    function Box(idx: nat, i: nat): (int, int)
      requires idx < Len() && i < DIMS && BoxIndex(idx, i) < |param|
    {
      param[BoxIndex(idx, i)]
    }

    function FirstChild(idx: nat): nat
      requires idx < Len()
    {
      nodes[idx] / TWO48
    }

    /** Tables are in range and small enough that squared distances do not wrap. */
    ghost predicate Tables() {
      && |steps| > 0 && steps[|steps| - 1] == 0
      && (forall k :: 0 <= k < |nodes| ==> nodes[k] < TWO64)
      && (forall k, i {:trigger BoxIndex(k, i)} :: 0 <= k < |nodes| && 0 <= i < DIMS ==> BoxIndex(k, i) < |param|)
      && (forall k :: 0 <= k < |param| ==> -LIMIT <= param[k].0 <= param[k].1 <= LIMIT)
    }

    /** The first stride from `depth` on that still fits behind `idx`. */
    function StrideDepth(idx: nat, depth: nat): (d: nat)
      requires depth < |steps| && steps[|steps| - 1] == 0 && idx < Len()
      ensures depth <= d < |steps| && idx + steps[d] < Len()
      decreases |steps| - depth
    {
      if idx + steps[depth] < Len() then depth else StrideDepth(idx, depth + 1)
    }
  }

  type Point = p: seq<int> | |p| == DIMS witness [0, 0, 0, 0, 0, 0]

  ghost predicate SmallPoint(np: Point) {
    forall i :: 0 <= i < DIMS ==> -LIMIT <= np[i] <= LIMIT
  }

  // -------------------------------------------------------------------- distance

  /** Distance from a coordinate to an interval. */
  function Gap(v: int, box: (int, int)): nat {
    if v > box.1 then v - box.1 else if v < box.0 then box.0 - v else 0
  }

  /** Squared distance from a point to the box of a node, over the first n axes. */
  function SquareSum(np: Point, t: Tree, idx: nat, n: nat): nat
    requires t.Tables() && idx < t.Len() && n <= DIMS
  {
    if n == 0 then 0
    else SquareSum(np, t, idx, n - 1) + Gap(np[n - 1], t.Box(idx, n - 1)) * Gap(np[n - 1], t.Box(idx, n - 1))
  }

  function Dist(np: Point, t: Tree, idx: nat): nat
    requires t.Tables() && idx < t.Len()
  {
    SquareSum(np, t, idx, |np|)
  }

  lemma GapBound(v: int, box: (int, int))
    requires -LIMIT <= v <= LIMIT && -LIMIT <= box.0 <= box.1 <= LIMIT
    ensures Gap(v, box) <= 2 * LIMIT
    ensures Gap(v, box) * Gap(v, box) <= 0x1000_0000_0000_0000
  {
    MulMonotone(Gap(v, box), 2 * LIMIT, Gap(v, box), 2 * LIMIT);
  }

  lemma {:induction false} SquareSumBound(np: Point, t: Tree, idx: nat, n: nat)
    requires t.Tables() && idx < t.Len() && n <= DIMS && SmallPoint(np)
    ensures SquareSum(np, t, idx, n) <= n * 0x1000_0000_0000_0000
  {
    if n > 0 {
      SquareSumBound(np, t, idx, n - 1);
      assert t.BoxIndex(idx, n - 1) < |t.param|;
      GapBound(np[n - 1], t.Box(idx, n - 1));
    }
  }

  /** One axis on wrapping words: the unsigned differences are tested by their sign
      bit, and the squares are small enough not to wrap. */
  function WordGap(v: int, box: (int, int)): nat {
    var a, b := U64(U64(v) - U64(box.1)), U64(U64(box.0) - U64(v));
    if S64(a) > 0 then a else if S64(b) > 0 then b else 0
  }

  lemma WordGapIsGap(v: int, box: (int, int))
    requires -LIMIT <= v <= LIMIT && -LIMIT <= box.0 <= box.1 <= LIMIT
    ensures WordGap(v, box) == Gap(v, box)
  {
    WrappedDifference(v, box.1);
    WrappedDifference(box.0, v);
  }

  lemma AddAxis(np: Point, t: Tree, idx: nat, i: nat)
    requires t.Tables() && SmallPoint(np) && idx < t.Len() && i < DIMS
    ensures t.BoxIndex(idx, i) < |t.param|
    ensures var d := WordGap(np[i], t.param[t.BoxIndex(idx, i)]);
      U64(SquareSum(np, t, idx, i) + U64(d * d)) == SquareSum(np, t, idx, i + 1)
  {
    var box := t.Box(idx, i);
    WordGapIsGap(np[i], box);
    GapBound(np[i], box);
    SquareSumBound(np, t, idx, i);
    SumDoesNotWrap(SquareSum(np, t, idx, i), Gap(np[i], box));
  }

  lemma SumDoesNotWrap(sum: nat, d: nat)
    requires sum <= 6 * 0x1000_0000_0000_0000 && d * d <= 0x1000_0000_0000_0000
    ensures U64(sum + U64(d * d)) == sum + d * d
  {
  }

  /** `get_np_dist`: the wrapping computation equals the mathematical distance. */
  method NpDist(np: Point, t: Tree, idx: nat) returns (ds: nat)
    requires t.Tables() && SmallPoint(np) && idx < t.Len()
    ensures ds == Dist(np, t, idx)
  {
    ds := 0;
    for i := 0 to |np|
      invariant ds == SquareSum(np, t, idx, i)
    {
      AddAxis(np, t, idx, i);
      var k := Byte(t.nodes[idx], i);
      var d := WordGap(np[i], t.param[k]);
      ds := U64(ds + U64(d * d));
    }
  }

  // ------------------------------------------------------------ shape of the tree

  /** The k-th child of `idx`, when the stride at depth `d` separates siblings. */
  function Child(t: Tree, idx: nat, d: nat, k: nat): nat
    requires idx < t.Len() && d < |t.steps|
  {
    t.FirstChild(idx) + k * t.steps[d]
  }

  ghost predicate Contains(t: Tree, outer: nat, inner: nat)
    requires t.Tables() && outer < t.Len() && inner < t.Len()
  {
    forall i {:trigger t.Box(outer, i)} :: 0 <= i < DIMS ==>
      t.Box(outer, i).0 <= t.Box(inner, i).0 && t.Box(inner, i).1 <= t.Box(outer, i).1
  }

  /** The subtree at (idx, depth) is well formed: some positive stride fits, sibling
      positions never leave 16 bits, and every child subtree is well formed with its
      box inside the parent's. The root box is never looked at by the search, and in
      the shipped tables it is not a bound of anything; hence `bounded`. */
  ghost predicate WellFormed(t: Tree, idx: nat, depth: nat, bounded: bool)
    requires t.Tables()
    decreases |t.steps| - depth
  {
    && idx < t.Len() && depth < |t.steps|
    && (t.steps[depth] != 0 ==>
        var d := t.StrideDepth(idx, depth);
        && t.steps[d] > 0 && t.order > 0 && d + 1 < |t.steps|
        && t.FirstChild(idx) < t.Len()
        && t.Len() + t.steps[d] <= 0x1_0000
        && (forall k {:trigger Child(t, idx, d, k)} :: 0 <= k < t.order && Child(t, idx, d, k) < t.Len() ==>
              && WellFormed(t, Child(t, idx, d, k), d + 1, true)
              && (bounded ==> Contains(t, idx, Child(t, idx, d, k)))))
  }

  /** The leaves below (idx, depth) from its k-th child on, in table order. */
  ghost function LeavesFrom(t: Tree, idx: nat, depth: nat, bounded: bool, k: nat): (s: seq<nat>)
    requires t.Tables() && WellFormed(t, idx, depth, bounded) && t.steps[depth] != 0 && k <= t.order
    ensures Nodes(t, s)
    decreases |t.steps| - depth, 0, t.order - k
  {
    var d := t.StrideDepth(idx, depth);
    if k == t.order || Child(t, idx, d, k) >= t.Len() then []
    else Leaves(t, Child(t, idx, d, k), d + 1, true) + LeavesFrom(t, idx, depth, bounded, k + 1)
  }

  ghost function Leaves(t: Tree, idx: nat, depth: nat, bounded: bool): (s: seq<nat>)
    requires t.Tables() && WellFormed(t, idx, depth, bounded)
    ensures Nodes(t, s) && |s| > 0
    decreases |t.steps| - depth, 1
  {
    if t.steps[depth] == 0 then [idx]
    else
      assert Child(t, idx, t.StrideDepth(idx, depth), 0) == t.FirstChild(idx);
      LeavesFrom(t, idx, depth, bounded, 0)
  }

  ghost predicate Nodes(t: Tree, s: seq<nat>) {
    forall k :: 0 <= k < |s| ==> s[k] < t.Len()
  }

  // ------------------------------------------------------------------- linear scan

  /** A plain scan: keep the best leaf so far, replace it only by a strictly nearer one. */
  ghost function Scan(np: Point, t: Tree, s: seq<nat>, leaf: nat, ds: nat): (nat, nat)
    requires t.Tables() && Nodes(t, s)
    decreases |s|
  {
    if s == [] then (leaf, ds)
    else if Dist(np, t, s[0]) < ds then Scan(np, t, s[1..], s[0], Dist(np, t, s[0]))
    else Scan(np, t, s[1..], leaf, ds)
  }

  lemma {:induction false} ScanAppend(np: Point, t: Tree, a: seq<nat>, b: seq<nat>, leaf: nat, ds: nat)
    requires t.Tables() && Nodes(t, a) && Nodes(t, b)
    ensures Nodes(t, a + b)
    ensures Scan(np, t, a + b, leaf, ds)
         == Scan(np, t, b, Scan(np, t, a, leaf, ds).0, Scan(np, t, a, leaf, ds).1)
    decreases |a|
  {
    if a == [] {
      assert a + b == b;
    } else {
      assert (a + b)[1..] == a[1..] + b;
      if Dist(np, t, a[0]) < ds {
        ScanAppend(np, t, a[1..], b, a[0], Dist(np, t, a[0]));
      } else {
        ScanAppend(np, t, a[1..], b, leaf, ds);
      }
    }
  }

  /** What the scan finds: the least distance among the start value and the leaves; the
      start leaf is kept on ties, otherwise a leaf with that distance is returned. */
  lemma {:induction false} ScanMinimum(np: Point, t: Tree, s: seq<nat>, leaf: nat, ds: nat)
    requires t.Tables() && Nodes(t, s)
    ensures var r := Scan(np, t, s, leaf, ds);
      && r.1 <= ds && (forall k :: 0 <= k < |s| ==> r.1 <= Dist(np, t, s[k]))
      && (r == (leaf, ds) || (r.0 in s && r.0 < t.Len() && r.1 == Dist(np, t, r.0) < ds))
    decreases |s|
  {
    if s != [] {
      var d := Dist(np, t, s[0]);
      if d < ds {
        ScanMinimum(np, t, s[1..], s[0], d);
      } else {
        ScanMinimum(np, t, s[1..], leaf, ds);
      }
    }
  }

  /** Leaves that are all at least `ds` away leave the scan where it was. */
  lemma {:induction false} ScanSkips(np: Point, t: Tree, s: seq<nat>, leaf: nat, ds: nat)
    requires t.Tables() && Nodes(t, s) && AllFarther(np, t, s, ds)
    ensures Scan(np, t, s, leaf, ds) == (leaf, ds)
    decreases |s|
  {
    if s != [] { ScanSkips(np, t, s[1..], leaf, ds); }
  }

  // ---------------------------------------------------------------- bounding boxes

  lemma {:induction false} ContainedIsFarther(np: Point, t: Tree, outer: nat, inner: nat, n: nat)
    requires t.Tables() && outer < t.Len() && inner < t.Len() && Contains(t, outer, inner) && n <= DIMS
    ensures SquareSum(np, t, outer, n) <= SquareSum(np, t, inner, n)
  {
    if n > 0 {
      ContainedIsFarther(np, t, outer, inner, n - 1);
      var g, h := Gap(np[n - 1], t.Box(outer, n - 1)), Gap(np[n - 1], t.Box(inner, n - 1));
      assert t.BoxIndex(inner, n - 1) < |t.param|;
      MulMonotone(g, h, g, h);
    }
  }

  ghost predicate AllFarther(np: Point, t: Tree, s: seq<nat>, ds: nat)
    requires t.Tables() && Nodes(t, s)
  {
    forall k :: 0 <= k < |s| ==> ds <= Dist(np, t, s[k])
  }

  lemma {:induction false} LeavesFromFarther(np: Point, t: Tree, idx: nat, depth: nat, k: nat)
    requires t.Tables() && WellFormed(t, idx, depth, true) && t.steps[depth] != 0 && k <= t.order
    ensures AllFarther(np, t, LeavesFrom(t, idx, depth, true, k), Dist(np, t, idx))
    decreases |t.steps| - depth, 0, t.order - k
  {
    var d := t.StrideDepth(idx, depth);
    var c := Child(t, idx, d, k);
    if k < t.order && c < t.Len() {
      LeavesFarther(np, t, c, d + 1);
      LeavesFromFarther(np, t, idx, depth, k + 1);
      ContainedIsFarther(np, t, idx, c, |np|);
      assert LeavesFrom(t, idx, depth, true, k)
          == Leaves(t, c, d + 1, true) + LeavesFrom(t, idx, depth, true, k + 1);
    }
  }

  /** No leaf is nearer than any bounded box above it. */
  lemma {:induction false} LeavesFarther(np: Point, t: Tree, idx: nat, depth: nat)
    requires t.Tables() && WellFormed(t, idx, depth, true)
    ensures AllFarther(np, t, Leaves(t, idx, depth, true), Dist(np, t, idx))
    decreases |t.steps| - depth, 1
  {
    if t.steps[depth] != 0 {
      LeavesFromFarther(np, t, idx, depth, 0);
      assert Leaves(t, idx, depth, true) == LeavesFrom(t, idx, depth, true, 0);
    }
  }

  // ------------------------------------------------------------------- the search

  /** A start value for the search: a leaf with its distance, or the "infinite"
      distance 2^64 - 1 that no node has. */
  ghost predicate Start(np: Point, t: Tree, alt: nat, ds: nat)
    requires t.Tables()
  {
    alt < t.Len() && (ds == Dist(np, t, alt) || ds == TWO64 - 1)
  }

  /** The leading loop of `get_resulting_node`: the stride for the children of `idx`
      and the depth below it. */
  method FindStride(t: Tree, idx: nat, depth0: nat) returns (step: nat, depth: nat)
    requires depth0 < |t.steps| && t.steps[|t.steps| - 1] == 0 && idx < t.Len()
    ensures depth == t.StrideDepth(idx, depth0) + 1 && step == t.steps[depth - 1]
  {
    step, depth := t.steps[depth0], depth0 + 1;
    while idx + step >= t.Len()
      invariant depth0 < depth <= |t.steps| && step == t.steps[depth - 1]
      invariant t.StrideDepth(idx, depth0) == t.StrideDepth(idx, depth - 1)
      decreases |t.steps| - depth
    {
      step := t.steps[depth];
      depth := depth + 1;
    }
  }

  /** `get_resulting_node`: exactly the plain scan of the leaves below `idx`, although
      subtrees whose box is no nearer than the best leaf are skipped. */
  method ResultingNode(np: Point, t: Tree, idx: nat, alt: nat, ds0: nat, depth0: nat, ghost bounded: bool)
    returns (leaf: nat)
    requires t.Tables() && SmallPoint(np) && WellFormed(t, idx, depth0, bounded)
    requires Start(np, t, alt, ds0)
    requires t.steps[depth0] == 0 ==> Dist(np, t, idx) < ds0
    ensures leaf == Scan(np, t, Leaves(t, idx, depth0, bounded), alt, ds0).0
    decreases |t.steps| - depth0, 2
  {
    if t.steps[depth0] == 0 { return idx; }
    var step, depth := FindStride(t, idx, depth0);
    leaf := ScanChildren(np, t, idx, alt, ds0, depth0, step, depth, bounded);
  }

  /** The loop over the children. */
  method ScanChildren(np: Point, t: Tree, idx: nat, alt: nat, ds0: nat, ghost depth0: nat, step: nat, depth: nat,
                      ghost bounded: bool) returns (leaf: nat)
    requires t.Tables() && SmallPoint(np) && WellFormed(t, idx, depth0, bounded) && t.steps[depth0] != 0
    requires depth == t.StrideDepth(idx, depth0) + 1 && step == t.steps[depth - 1] && Start(np, t, alt, ds0)
    ensures leaf == Scan(np, t, LeavesFrom(t, idx, depth0, bounded, 0), alt, ds0).0
    decreases |t.steps| - depth0, 1
  {
    var inner := t.nodes[idx] / TWO48;
    leaf := alt;
    var ds := ds0;
    var i: nat := 0;
    ghost var goal := Scan(np, t, LeavesFrom(t, idx, depth0, bounded, 0), alt, ds0);
    while i < t.order
      invariant i <= t.order && inner == Child(t, idx, depth - 1, i) < t.Len() && Start(np, t, leaf, ds)
      invariant goal == Scan(np, t, LeavesFrom(t, idx, depth0, bounded, i), leaf, ds)
      decreases t.order - i
    {
      leaf, ds, inner := ScanChild(np, t, idx, inner, leaf, ds, depth0, step, depth, i, bounded);
      i := i + 1;
      if inner >= t.Len() {
        NoLeavesLeft(np, t, idx, depth0, bounded, i, leaf, ds);
        return;
      }
    }
    NoLeavesLeft(np, t, idx, depth0, bounded, i, leaf, ds);
  }

  /** Child i: from its leaves and those of the children behind it, to the latter. */
  method ScanChild(np: Point, t: Tree, idx: nat, inner: nat, leaf: nat, ds: nat, ghost depth0: nat, step: nat,
                   depth: nat, ghost i: nat, ghost bounded: bool) returns (leaf': nat, ds': nat, inner': nat)
    requires t.Tables() && SmallPoint(np) && WellFormed(t, idx, depth0, bounded) && t.steps[depth0] != 0
    requires i < t.order && depth == t.StrideDepth(idx, depth0) + 1 && step == t.steps[depth - 1]
    requires inner == Child(t, idx, depth - 1, i) < t.Len() && Start(np, t, leaf, ds)
    ensures Start(np, t, leaf', ds') && inner' == Child(t, idx, depth - 1, i + 1)
    ensures Scan(np, t, LeavesFrom(t, idx, depth0, bounded, i + 1), leaf', ds')
         == Scan(np, t, LeavesFrom(t, idx, depth0, bounded, i), leaf, ds)
    decreases |t.steps| - depth0, 0
  {
    LeavesOfChild(np, t, idx, depth0, bounded, i, leaf, ds);
    leaf', ds' := VisitChild(np, t, inner, leaf, ds, depth);
    NextChild(t, idx, depth - 1, i);
    inner' := (inner + step) % 0x1_0000;
  }

  /** The scan over the leaves of one child, and then over those of the children behind. */
  lemma LeavesOfChild(np: Point, t: Tree, idx: nat, depth: nat, bounded: bool, k: nat, leaf: nat, ds: nat)
    requires t.Tables() && WellFormed(t, idx, depth, bounded) && t.steps[depth] != 0 && k < t.order
    requires Child(t, idx, t.StrideDepth(idx, depth), k) < t.Len()
    ensures var d := t.StrideDepth(idx, depth);
      var r := Scan(np, t, Leaves(t, Child(t, idx, d, k), d + 1, true), leaf, ds);
      Scan(np, t, LeavesFrom(t, idx, depth, bounded, k), leaf, ds)
        == Scan(np, t, LeavesFrom(t, idx, depth, bounded, k + 1), r.0, r.1)
  {
    var d := t.StrideDepth(idx, depth);
    ScanAppend(np, t, Leaves(t, Child(t, idx, d, k), d + 1, true), LeavesFrom(t, idx, depth, bounded, k + 1), leaf, ds);
  }

  lemma NoLeavesLeft(np: Point, t: Tree, idx: nat, depth: nat, bounded: bool, k: nat, leaf: nat, ds: nat)
    requires t.Tables() && WellFormed(t, idx, depth, bounded) && t.steps[depth] != 0 && k <= t.order
    requires k == t.order || Child(t, idx, t.StrideDepth(idx, depth), k) >= t.Len()
    ensures Scan(np, t, LeavesFrom(t, idx, depth, bounded, k), leaf, ds) == (leaf, ds)
  {
  }

  /** The body of the child loop: descend only into a box nearer than the best leaf. */
  method VisitChild(np: Point, t: Tree, inner: nat, leaf: nat, ds: nat, depth: nat)
    returns (leaf': nat, ds': nat)
    requires t.Tables() && SmallPoint(np) && WellFormed(t, inner, depth, true)
    requires Start(np, t, leaf, ds)
    ensures (leaf', ds') == Scan(np, t, Leaves(t, inner, depth, true), leaf, ds)
    ensures Start(np, t, leaf', ds')
    decreases |t.steps| - depth, 3
  {
    leaf', ds' := leaf, ds;
    var dsInner := NpDist(np, t, inner);
    ghost var here := Leaves(t, inner, depth, true);
    if dsInner < ds {
      var leaf2 := ResultingNode(np, t, inner, leaf, ds, depth, true);
      ScanFromStart(np, t, here, leaf, ds);
      var dsLeaf2 := dsInner;
      if inner != leaf2 { dsLeaf2 := NpDist(np, t, leaf2); }
      if dsLeaf2 < ds {
        leaf', ds' := leaf2, dsLeaf2;
      }
    } else {
      LeavesFarther(np, t, inner, depth);
      ScanSkips(np, t, here, leaf, ds);
    }
  }

  /** Scanning a non-empty list from a start value ends in a leaf with its distance;
      unless the scan kept its start, the distance has dropped. */
  lemma ScanFromStart(np: Point, t: Tree, s: seq<nat>, leaf: nat, ds: nat)
    requires t.Tables() && SmallPoint(np) && Nodes(t, s) && |s| > 0 && Start(np, t, leaf, ds)
    ensures var r := Scan(np, t, s, leaf, ds);
      r.0 < t.Len() && r.1 == Dist(np, t, r.0) && (r == (leaf, ds) || r.1 < ds)
  {
    ScanMinimum(np, t, s, leaf, ds);
    SquareSumBound(np, t, s[0], |np|);
  }

  lemma NextChild(t: Tree, idx: nat, d: nat, i: nat)
    requires idx < t.Len() && d < |t.steps| && Child(t, idx, d, i) < t.Len()
    requires t.Len() + t.steps[d] <= 0x1_0000
    ensures Child(t, idx, d, i + 1) == (Child(t, idx, d, i) + t.steps[d]) % 0x1_0000
  {
  }

  // -------------------------------------------------------------------- the lookup

  datatype Hint = NoHint | FromNode(idx: nat)

  /** `climateToBiome` on one of the tables: the node found and its biome byte. The
      original writes the node back into the hint. */
  method ClimateToBiome(np: Point, t: Tree, dat: Hint) returns (idx: nat, biome: nat)
    requires t.Tables() && SmallPoint(np) && WellFormed(t, 0, 0, false) && t.steps[0] != 0
    requires dat.FromNode? ==> dat.idx < t.Len()
    ensures idx < t.Len() && biome == (t.nodes[idx] / TWO48) % 256
    ensures idx == Found(np, t, dat)
  {
    if dat.FromNode? {
      var ds := NpDist(np, t, dat.idx);
      idx := ResultingNode(np, t, 0, dat.idx, ds, 0, false);
    } else {
      idx := ResultingNode(np, t, 0, 0, TWO64 - 1, 0, false);
    }
    FoundIsNearest(np, t, dat);
    biome := (t.nodes[idx] / TWO48) % 256;
  }

  /** The reference: a scan of all leaves from the hint. */
  ghost function Found(np: Point, t: Tree, dat: Hint): nat
    requires t.Tables() && WellFormed(t, 0, 0, false)
    requires dat.FromNode? ==> dat.idx < t.Len()
  {
    if dat.FromNode? then Scan(np, t, Leaves(t, 0, 0, false), dat.idx, Dist(np, t, dat.idx)).0
    else Scan(np, t, Leaves(t, 0, 0, false), 0, TWO64 - 1).0
  }

  ghost predicate NearestLeaf(np: Point, t: Tree, idx: nat)
    requires t.Tables() && WellFormed(t, 0, 0, false)
  {
    var s := Leaves(t, 0, 0, false);
    idx in s && idx < t.Len() && AllFarther(np, t, s, Dist(np, t, idx))
  }

  /** Without a hint the result is a nearest leaf. With any node as hint, the hint is
      returned if no leaf is strictly nearer than its box, and a nearest leaf otherwise. */
  lemma FoundIsNearest(np: Point, t: Tree, dat: Hint)
    requires t.Tables() && SmallPoint(np) && WellFormed(t, 0, 0, false)
    requires dat.FromNode? ==> dat.idx < t.Len()
    ensures Found(np, t, dat) < t.Len()
    ensures dat.NoHint? ==> NearestLeaf(np, t, Found(np, t, dat))
    ensures dat.FromNode? ==>
      if AllFarther(np, t, Leaves(t, 0, 0, false), Dist(np, t, dat.idx)) then Found(np, t, dat) == dat.idx
      else NearestLeaf(np, t, Found(np, t, dat))
  {
    var s := Leaves(t, 0, 0, false);
    if dat.FromNode? {
      ScanMinimum(np, t, s, dat.idx, Dist(np, t, dat.idx));
      if AllFarther(np, t, s, Dist(np, t, dat.idx)) {
        ScanSkips(np, t, s, dat.idx, Dist(np, t, dat.idx));
      }
    } else {
      ScanMinimum(np, t, s, 0, TWO64 - 1);
      SquareSumBound(np, t, s[0], |np|);
    }
  }

  /** A leaf as hint never changes the distance found, only which of several equally
      near leaves is returned. */
  lemma LeafHintIsHarmless(np: Point, t: Tree, leaf: nat)
    requires t.Tables() && SmallPoint(np) && WellFormed(t, 0, 0, false)
    requires leaf < t.Len() && leaf in Leaves(t, 0, 0, false)
    ensures NearestLeaf(np, t, Found(np, t, FromNode(leaf))) && NearestLeaf(np, t, Found(np, t, NoHint))
    ensures Dist(np, t, Found(np, t, FromNode(leaf))) == Dist(np, t, Found(np, t, NoHint))
  {
    FoundIsNearest(np, t, FromNode(leaf));
    FoundIsNearest(np, t, NoHint);
    NearestIsUnique(np, t, Found(np, t, FromNode(leaf)), Found(np, t, NoHint));
  }

  lemma NearestIsUnique(np: Point, t: Tree, a: nat, b: nat)
    requires t.Tables() && WellFormed(t, 0, 0, false)
    requires NearestLeaf(np, t, a) && NearestLeaf(np, t, b)
    ensures Dist(np, t, a) == Dist(np, t, b)
  {
  }

  /** The buffered generator starts with the hint 0, which is the root and no leaf: then
      a leaf is found exactly when some leaf is strictly nearer than the root's box. */
  lemma ZeroHint(np: Point, t: Tree)
    requires t.Tables() && SmallPoint(np) && WellFormed(t, 0, 0, false)
    requires 0 !in Leaves(t, 0, 0, false)
    ensures NearestLeaf(np, t, Found(np, t, FromNode(0)))
       <==> !AllFarther(np, t, Leaves(t, 0, 0, false), Dist(np, t, 0))
  {
    FoundIsNearest(np, t, FromNode(0));
  }

  /** The point lies in the box of the root. */
  ghost predicate InRootBox(np: Point, t: Tree)
    requires t.Tables() && 0 < t.Len()
  {
    forall i :: 0 <= i < DIMS ==> t.Box(0, i).0 <= np[i] <= t.Box(0, i).1
  }

  /** For every table, the hint 0 returns the root itself for all points in the root's
      box; and so for the origin wherever that box is the origin on all axes, as in the
      shipped tables. */
  lemma ZeroHintFails(np: Point, t: Tree)
    requires t.Tables() && SmallPoint(np) && WellFormed(t, 0, 0, false) && InRootBox(np, t)
    ensures Found(np, t, FromNode(0)) == 0
    ensures 0 !in Leaves(t, 0, 0, false) ==> !NearestLeaf(np, t, 0)
  {
    var s := Leaves(t, 0, 0, false);
    InsideIsNear(np, t, |np|);
    assert AllFarther(np, t, s, Dist(np, t, 0));
    ScanSkips(np, t, s, 0, Dist(np, t, 0));
  }

  lemma OriginHintFails(np: Point, t: Tree)
    requires t.Tables() && WellFormed(t, 0, 0, false) && np == [0, 0, 0, 0, 0, 0]
    requires forall i :: 0 <= i < DIMS ==> t.Box(0, i) == (0, 0)
    ensures Found(np, t, FromNode(0)) == 0
  {
    ZeroHintFails(np, t);
  }

  lemma {:induction false} InsideIsNear(np: Point, t: Tree, n: nat)
    requires t.Tables() && 0 < t.Len() && n <= DIMS && InRootBox(np, t)
    ensures SquareSum(np, t, 0, n) == 0
  {
    if n > 0 { InsideIsNear(np, t, n - 1); }
  }
}
