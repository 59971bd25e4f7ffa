/** With tolerance 1 the areas that the scan collects are connected components
    (finders.c). */
module BiomeCenters {
  import opened FillQueue
  import opened FloodFill
  import opened FillScan

  // --------------------------------------------------------------- connected components

  /** A path of 4-steps inside a set of cells. */
  ghost predicate Path(g: set<Cell>, a: Cell, p: seq<Cell>) {
    && |p| > 0 && p[0] == a && p[|p| - 1] in g
    && (|p| > 1 ==> Adjacent(p[|p| - 2], p[|p| - 1]) && Path(g, a, p[..|p| - 1]))
  }

  ghost predicate PathTo(g: set<Cell>, a: Cell, b: Cell, p: seq<Cell>) {
    Path(g, a, p) && p[|p| - 1] == b
  }

  ghost predicate Connected(g: set<Cell>, a: Cell, b: Cell) {
    exists p :: PathTo(g, a, b, p)
  }

  /** The list enumerates the connected component of `a`, each cell once. */
  ghost predicate Enumerates(g: set<Cell>, a: Cell, area: seq<Cell>) {
    Distinct(area) && forall c :: c in area <==> Connected(g, a, c)
  }

  lemma ConnectedStep(g: set<Cell>, a: Cell, b: Cell, c: Cell)
    requires Connected(g, a, b) && Adjacent(b, c) && c in g
    ensures Connected(g, a, c)
  {
    var p :| PathTo(g, a, b, p);
    var q := p + [c];
    assert q[..|q| - 1] == p;
    assert PathTo(g, a, c, q);
  }

  /** Walks with tolerance 1 are paths through unmarked matching cells. */
  lemma {:induction false} WalkIsPath(w: World, p: seq<Cell>)
    requires w.tol == 1
    ensures w.Walk(p) <==> Path(w.free * w.good, w.start, p)
  {
    if |p| > 1 { WalkIsPath(w, p[..|p| - 1]); }
  }

  lemma ReachedIsConnected(w: World, c: Cell)
    requires w.tol == 1
    ensures w.Reached(c) <==> Connected(w.free * w.good, w.start, c)
  {
    var g := w.free * w.good;
    if w.Reached(c) {
      var p :| w.ReachedBy(c, p);
      WalkIsPath(w, p);
      assert PathTo(g, w.start, c, p);
    }
    if Connected(g, w.start, c) {
      var p :| PathTo(g, w.start, c, p);
      WalkIsPath(w, p);
      assert w.ReachedBy(c, p);
    }
  }

  /** The part of g that no earlier fill has marked is a union of components. */
  ghost predicate Closed(g: set<Cell>, part: set<Cell>) {
    part <= g && forall c, nb :: c in part && Adjacent(c, nb) && nb in g ==> nb in part
  }

  lemma {:induction false} PathStaysInside(g: set<Cell>, part: set<Cell>, a: Cell, p: seq<Cell>)
    requires Closed(g, part) && a in part
    ensures Path(part, a, p) <==> Path(g, a, p)
  {
    if |p| > 1 { PathStaysInside(g, part, a, p[..|p| - 1]); }
  }

  lemma ComponentInside(g: set<Cell>, part: set<Cell>, a: Cell, c: Cell)
    requires Closed(g, part) && a in part
    ensures Connected(part, a, c) <==> Connected(g, a, c)
    ensures Connected(g, a, c) ==> c in part
  {
    if Connected(part, a, c) {
      var p :| PathTo(part, a, c, p);
      PathStaysInside(g, part, a, p);
      assert PathTo(g, a, c, p);
    }
    if Connected(g, a, c) {
      var p :| PathTo(g, a, c, p);
      PathStaysInside(g, part, a, p);
      assert PathTo(part, a, c, p);
    }
  }

  lemma AdjacentSymmetric(a: Cell, b: Cell)
    ensures Adjacent(a, b) <==> Adjacent(b, a)
  {
  }

  /** Removing a component leaves a union of components. */
  lemma RemoveComponent(g: set<Cell>, part: set<Cell>, a: Cell, area: seq<Cell>)
    requires Closed(g, part) && a in part && Enumerates(g, a, area)
    ensures Closed(g, set c | c in part && c !in area)
  {
    var rest := set c | c in part && c !in area;
    forall c, nb | c in rest && Adjacent(c, nb) && nb in g ensures nb in rest {
      if nb in area {
        AdjacentSymmetric(c, nb);
        ConnectedStep(g, a, nb, c);
      }
    }
  }

  /** A fill with tolerance 1 started on an unmarked cell of g counts exactly the
      component of that cell in g. */
  lemma FillIsComponent(g: set<Cell>, w: World, unmarked: set<Cell>, order: seq<Cell>)
    requires FillState(w, unmarked, [], order) && w.tol == 1 && w.start in w.free
    requires forall c :: c in w.free ==> w.InGrid(c)
    requires w.free * g == w.good && Closed(g, w.good) && w.start in g
    ensures Enumerates(g, w.start, order)
    ensures forall c :: c in g && c in w.free ==> (c in order <==> c !in unmarked)
  {
    UnitTolerance(w, unmarked, order);
    assert w.free * w.good == w.good;
    forall c ensures c in order <==> Connected(g, w.start, c) {
      ReachedIsConnected(w, c);
      ComponentInside(g, w.good, w.start, c);
    }
    FillResult(w, unmarked, order);
  }

  // --------------------------------------------------------------------- a whole scan

  /** The cells of the wanted biome, which newer versions sample anew. */
  ghost function Matches(was: map<Cell, int>, s: Search): set<Cell> {
    set c | c in was && s.Biome(c, was[c]) == s.match_
  }

  ghost predicate InAreas(areas: seq<seq<Cell>>, c: Cell) {
    exists k :: 0 <= k < |areas| && c in areas[k]
  }

  /** A fill from a cell of g counts its component, and any other fill counts nothing. */
  ghost predicate Counts(g: set<Cell>, f: Fill) {
    if f.w.start in g then Enumerates(g, f.w.start, f.order) else f.order == []
  }

  lemma {:induction false} NoWalk(w: World, p: seq<Cell>)
    requires w.tol == 1 && w.start !in w.good
    ensures !w.Walk(p)
  {
    if |p| > 1 { NoWalk(w, p[..|p| - 1]); }
    if |p| == 1 { assert p[..0] == []; }
  }

  /** From a cell that does not match nothing is reached with tolerance 1. */
  lemma NothingCounted(f: Fill)
    requires FillState(f.w, f.left, [], f.order) && f.w.tol == 1 && f.w.start !in f.w.good
    ensures f.order == [] && f.left * f.w.good == f.w.free * f.w.good
  {
    if f.order != [] {
      var c := f.order[0];
      assert f.w.Reached(c);
      var p :| f.w.ReachedBy(c, p);
      NoWalk(f.w, p);
    }
  }

  /** What a scan with tolerance 1 has done: each fill counted a component or nothing, and
      the cells of g that are left are those of no area; they make up whole components. */
  ghost predicate Tiled(g: set<Cell>, fills: seq<Fill>, left: set<Cell>) {
    && Closed(g, left * g) && (forall k :: 0 <= k < |fills| ==> Counts(g, fills[k]))
    && forall c :: c in g ==> (c in left <==> !InAreas(Orders(fills), c))
  }

  lemma {:induction false} ScanTiles(was: map<Cell, int>, s: Search, candidate: int, fills: seq<Fill>, left: set<Cell>)
    requires Chain(was, s, candidate, fills, left) && s.tol == 1
    ensures Tiled(Matches(was, s), fills, left)
    decreases |fills|
  {
    if fills != [] {
      var before, f := fills[..|fills| - 1], fills[|fills| - 1];
      ScanTiles(was, s, candidate, before, f.w.free);
      assert before + [f] == fills;
      ChainMore(was, s, candidate, before, f);
      TileOne(Matches(was, s), before, f);
    }
  }

  lemma TileOne(g: set<Cell>, before: seq<Fill>, f: Fill)
    requires Tiled(g, before, f.w.free) && FillState(f.w, f.left, [], f.order)
    requires f.w.tol == 1 && f.w.start in f.w.free && f.w.good == f.w.free * g
    requires forall c :: c in f.w.free ==> f.w.InGrid(c)
    ensures Tiled(g, before + [f], f.left)
  {
    OneTile(g, f);
    var all := Orders(before + [f]);
    AreasMore(Orders(before), f.order);
    assert all == Orders(before) + [f.order];
  }

  /** What one fill takes away from g. */
  lemma OneTile(g: set<Cell>, f: Fill)
    requires Closed(g, f.w.free * g) && FillState(f.w, f.left, [], f.order)
    requires f.w.tol == 1 && f.w.start in f.w.free && f.w.good == f.w.free * g
    requires forall c :: c in f.w.free ==> f.w.InGrid(c)
    ensures Counts(g, f) && Closed(g, f.left * g)
    ensures forall c :: c in g && c in f.w.free ==> (c in f.order <==> c !in f.left)
    ensures forall c :: c in f.order ==> c in f.w.free
  {
    FillResult(f.w, f.left, f.order);
    if f.w.start in g {
      FillIsComponent(g, f.w, f.left, f.order);
      RemoveComponent(g, f.w.good, f.w.start, f.order);
      assert f.left * g == set c | c in f.w.good && c !in f.order;
    } else {
      NothingCounted(f);
      assert f.left * g == f.w.good;
    }
  }

  lemma AreasMore(areas: seq<seq<Cell>>, area: seq<Cell>)
    ensures forall c :: InAreas(areas + [area], c) <==> InAreas(areas, c) || c in area
  {
    var all := areas + [area];
    forall c ensures InAreas(all, c) <==> InAreas(areas, c) || c in area {
      if c in area { assert c in all[|areas|]; }
      if InAreas(areas, c) {
        var k :| 0 <= k < |areas| && c in areas[k];
        assert c in all[k];
      }
    }
  }

  /** With tolerance 1 the areas of a scan are the components of the matching cells that
      contain a candidate at a step, each once: every area is a component or empty, and
      every matching candidate at a step that was passed is in an area. */
  lemma AreasAreComponents(was: map<Cell, int>, s: Search, candidate: int, step: nat, fills: seq<Fill>, left: set<Cell>,
                           rows: int)
    requires Chain(was, s, candidate, fills, left) && s.tol == 1 && step > 0
    requires Passed(was, candidate, step, left, 0, rows) && forall c :: c in was ==> c.j < rows
    ensures forall k :: 0 <= k < |fills| ==> Counts(Matches(was, s), fills[k])
    ensures forall c | c in Matches(was, s) && Stop(was, candidate, step, c) :: InAreas(Orders(fills), c)
  {
    ScanTiles(was, s, candidate, fills, left);
    forall c | c in Matches(was, s) && Stop(was, candidate, step, c) ensures InAreas(Orders(fills), c) {
      assert Before(c, 0, rows);
    }
  }

  // -------------------------------------------------------------------- the parameters

  /** Half the square root of n, rounded down. */
  function HalfRoot(n: nat): (k: nat)
    ensures 4 * k * k <= n < 4 * (k + 1) * (k + 1)
  {
    HalfRootFrom(n, 0)
  }

  function HalfRootFrom(n: nat, k: nat): (r: nat)
    requires 4 * k * k <= n
    ensures 4 * r * r <= n < 4 * (r + 1) * (r + 1)
    decreases n - k
  {
    if n < 4 * (k + 1) * (k + 1) then k else HalfRootFrom(n, k + 1)
  }

  /** The step of the scan: the tolerance, and for newer versions with tolerance 1 a step
      that grows with the size asked for. */
  function StepOf(tol: nat, minsiz: nat, newer: bool): (step: nat)
    requires tol > 0
    ensures step > 0
  {
    if newer && tol == 1 then 1 + HalfRoot(minsiz) else tol
  }

  function AtLeastOne(n: int): nat {
    if n <= 0 then 1 else n
  }

  /** What newer versions look for in the grid: entries that the prefilter has kept. */
  const KEPT := -1

  function CandidateOf(match_: int, newer: bool): int {
    if newer then KEPT else match_
  }

  /** The search that is made: a tolerance of 0 stands for 1. */
  function Normal(s: Search): Search {
    s.(tol := AtLeastOne(s.tol))
  }

  function StepFor(s: Search, minsiz: int): (step: nat)
    ensures step > 0
  {
    StepOf(AtLeastOne(s.tol), AtLeastOne(minsiz), s.resample)
  }

  /** `getBiomeCenters` from the prepared grid on, for any version, tolerance and size. */
  method GetBiomeCenters(ids: array2<int>, s0: Search, minsiz: int, nmax: int)
    returns (found: seq<Tally>, ghost fills: seq<Fill>, ghost left: set<Cell>)
    requires s0.resample || s0.match_ != INT_MAX
    requires forall i, j :: 0 <= i < ids.Length1 && 0 <= j < ids.Length0 ==> ids[j, i] != INT_MAX
    modifies ids
    ensures Chain(old(Snapshot(ids)), Normal(s0), CandidateOf(s0.match_, s0.resample), fills, left)
    ensures Reports(Normal(s0), found, Orders(fills), AtLeastOne(minsiz))
    ensures s0.tol <= 1 ==> forall k :: 0 <= k < |fills| ==> Counts(old(Matches(Snapshot(ids), s0)), fills[k])
    ensures s0.tol <= 1 && (|found| == 0 || |found| < nmax) ==>
      forall c :: c in old(Matches(Snapshot(ids), s0))
        && Stop(old(Snapshot(ids)), CandidateOf(s0.match_, s0.resample), StepFor(s0, minsiz), c)
        ==> InAreas(Orders(fills), c)
    ensures s0.tol <= 1 && !s0.resample && (|found| == 0 || |found| < nmax) ==>
      forall c :: c in old(Matches(Snapshot(ids), s0)) ==> InAreas(Orders(fills), c)
  {
    ghost var was := Snapshot(ids);
    var s, candidate, step := Normal(s0), CandidateOf(s0.match_, s0.resample), StepFor(s0, minsiz);
    found, fills, left := ReportFills(ids, s, candidate, step, minsiz, nmax);
    if s.tol == 1 {
      assert Matches(was, s) == Matches(was, s0);
      ScanTiles(was, s, candidate, fills, left);
      if |found| == 0 || |found| < nmax {
        AreasAreComponents(was, s, candidate, step, fills, left, ids.Length0);
        if !s.resample { OldScanStopsEverywhere(was, s0, minsiz); }
      }
    }
  }

  /** In older versions every matching cell is a candidate at a step. */
  lemma OldScanStopsEverywhere(was: map<Cell, int>, s: Search, minsiz: int)
    requires s.tol <= 1 && !s.resample
    ensures forall c :: c in Matches(was, s) ==>
      Stop(was, CandidateOf(s.match_, s.resample), StepFor(s, minsiz), c)
  {
  }
}
