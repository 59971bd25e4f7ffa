/** The scan of getBiomeCenters for any tolerance and step (finders.c): also for versions
    from 1.18 on, where the grid only marks candidates and the fill samples biomes anew. */
module FillScan {
  import opened Arith
  import opened FillQueue
  import opened FloodFill

  /** One fill of a scan: what it worked on, the cells left unmarked, the cells counted. */
  datatype Fill = Fill(w: World, left: set<Cell>, order: seq<Cell>)

  /** A completed fill from a candidate cell of the original grid. */
  ghost predicate OneFill(was: map<Cell, int>, s: Search, candidate: int, f: Fill) {
    && FillState(f.w, f.left, [], f.order) && f.w.tol == s.tol && f.w.free <= was.Keys
    && f.w.start in f.w.free && was[f.w.start] == candidate && (forall c :: c in f.w.free ==> f.w.InGrid(c))
    && (forall c :: c in f.w.good <==> c in f.w.free && s.Biome(c, was[c]) == s.match_)
  }

  /** Fills one after the other: each works on the cells that the one before left. */
  ghost predicate Chain(was: map<Cell, int>, s: Search, candidate: int, fills: seq<Fill>, left: set<Cell>) {
    if fills == [] then left == was.Keys
    else
      var f := fills[|fills| - 1];
      f.left == left && OneFill(was, s, candidate, f) && Chain(was, s, candidate, fills[..|fills| - 1], f.w.free)
  }

  ghost function Orders(fills: seq<Fill>): (areas: seq<seq<Cell>>)
    ensures |areas| == |fills| && forall k :: 0 <= k < |fills| ==> areas[k] == fills[k].order
  {
    seq(|fills|, k requires 0 <= k < |fills| => fills[k].order)
  }

  lemma ChainMore(was: map<Cell, int>, s: Search, candidate: int, fills: seq<Fill>, f: Fill)
    requires Chain(was, s, candidate, fills, f.w.free) && OneFill(was, s, candidate, f)
    ensures Chain(was, s, candidate, fills + [f], f.left)
    ensures Orders(fills + [f]) == Orders(fills) + [f.order]
  {
    assert (fills + [f])[..|fills|] == fills;
  }

  lemma {:induction false} ChainFill(was: map<Cell, int>, s: Search, candidate: int, fills: seq<Fill>,
                                     left: set<Cell>, k: nat)
    requires Chain(was, s, candidate, fills, left) && k < |fills|
    ensures OneFill(was, s, candidate, fills[k]) && left <= fills[k].left
    decreases |fills|
  {
    var last := |fills| - 1;
    if k < last {
      ChainFill(was, s, candidate, fills[..last], fills[last].w.free, k);
    }
  }

  lemma {:induction false} LaterFill(was: map<Cell, int>, s: Search, candidate: int, fills: seq<Fill>,
                                     left: set<Cell>, k: nat, l: nat)
    requires Chain(was, s, candidate, fills, left) && k < l < |fills|
    ensures fills[l].w.free <= fills[k].left
    decreases |fills|
  {
    var last := |fills| - 1;
    if l < last {
      LaterFill(was, s, candidate, fills[..last], fills[last].w.free, k, l);
    } else {
      ChainFill(was, s, candidate, fills[..last], fills[last].w.free, k);
    }
  }

  /** What the fills of a scan count: cells of the wanted biome, each at most once by one
      of the fills, reached from its start with gaps below the tolerance, and with no
      unmarked neighbour left. */
  lemma FillsMeaning(was: map<Cell, int>, s: Search, candidate: int, fills: seq<Fill>, left: set<Cell>)
    requires Chain(was, s, candidate, fills, left)
    ensures forall k :: 0 <= k < |fills| ==> Distinct(fills[k].order)
    ensures forall k, c :: 0 <= k < |fills| && c in fills[k].order ==>
      c in was && s.Biome(c, was[c]) == s.match_ && fills[k].w.Reached(c) && c !in left
    ensures forall k, l, c :: 0 <= k < l < |fills| && c in fills[k].order ==> c !in fills[l].order
    ensures forall k, c, nb | 0 <= k < |fills| && c in fills[k].order && Adjacent(c, nb) ::
      fills[k].w.InGrid(nb) ==> nb !in left
  {
    forall k | 0 <= k < |fills| ensures OneFill(was, s, candidate, fills[k]) && left <= fills[k].left {
      ChainFill(was, s, candidate, fills, left, k);
      FillResult(fills[k].w, fills[k].left, fills[k].order);
    }
    forall k, l, c | 0 <= k < l < |fills| && c in fills[k].order ensures c !in fills[l].order {
      LaterFill(was, s, candidate, fills, left, k, l);
    }
    forall k, c, nb | 0 <= k < |fills| && c in fills[k].order && Adjacent(c, nb) && fills[k].w.InGrid(nb)
      ensures nb !in left
    {
      FillResult(fills[k].w, fills[k].left, fills[k].order);
    }
  }

  // ------------------------------------------------------------------------- the loops

  /** `found` reports, in order, the tallies of the areas of at least minsiz cells. */
  ghost predicate Reports(s: Search, found: seq<Tally>, areas: seq<seq<Cell>>, minsiz: int) {
    if areas == [] then found == []
    else
      var last := |areas| - 1;
      if |areas[last]| >= minsiz then
        |found| > 0 && Tallied(s, found[|found| - 1], areas[last]) &&
        Reports(s, found[..|found| - 1], areas[..last], minsiz)
      else Reports(s, found, areas[..last], minsiz)
  }

  lemma ReportsMore(s: Search, found: seq<Tally>, areas: seq<seq<Cell>>, minsiz: int, t: Tally, area: seq<Cell>)
    requires Reports(s, found, areas, minsiz) && Tallied(s, t, area)
    ensures Reports(s, if t.n >= minsiz then found + [t] else found, areas + [area], minsiz)
  {
    assert (areas + [area])[..|areas|] == areas;
    assert (found + [t])[..|found|] == found;
  }

  /** Grid marks composed over two stretches. */
  lemma MarkedSince(ids: array2<int>, was: map<Cell, int>, mid: map<Cell, int>, unmarked: set<Cell>,
                    unmarked': set<Cell>)
    requires unmarked' <= unmarked <= was.Keys && mid.Keys == was.Keys
    requires forall c :: c in was ==> mid[c] == if c in unmarked then was[c] else INT_MAX
    requires Marked(ids, mid, unmarked')
    ensures Marked(ids, was, unmarked')
  {
  }

  /** A candidate of the original grid at which the scan stops. */
  ghost predicate Stop(was: map<Cell, int>, candidate: int, step: nat, c: Cell)
    requires step > 0
  {
    c in was && was[c] == candidate && c.i % step == 0 && c.j % step == 0
  }

  predicate Before(c: Cell, i: int, j: int) {
    c.j < j || (c.j == j && c.i < i)
  }

  /** Position (i, j) of the scan: candidates at the steps before it are marked. */
  ghost predicate Passed(was: map<Cell, int>, candidate: int, step: nat, left: set<Cell>, i: int, j: int)
    requires step > 0
  {
    forall c | Stop(was, candidate, step, c) && Before(c, i, j) :: c !in left
  }

  /** What the proof remembers of a scan. */
  datatype FillTrace = FillTrace(fills: seq<Fill>, left: set<Cell>)

  ghost predicate Scan(ids: array2<int>, s: Search, candidate: int, was: map<Cell, int>, tr: FillTrace,
                       found: seq<Tally>, minsiz: int)
    reads ids
  {
    && s.tol > 0 && candidate != INT_MAX && Marked(ids, was, tr.left)
    && Chain(was, s, candidate, tr.fills, tr.left) && Reports(s, found, Orders(tr.fills), minsiz)
  }

  lemma WorldInChain(ids: array2<int>, s: Search, was: map<Cell, int>, left: set<Cell>, start: Cell)
    requires Marked(ids, was, left)
    ensures var w := WorldOf(ids, s, start);
      && w.free == left && (forall c :: c in w.free ==> w.InGrid(c))
      && (forall c :: c in w.good <==> c in left && s.Biome(c, was[c]) == s.match_)
      && Snapshot(ids).Keys == was.Keys
      && (forall c :: c in was ==> Snapshot(ids)[c] == if c in left then was[c] else INT_MAX)
  {
  }

  /** One cell of the scan: nothing, or a fill, which is reported if it is large enough. */
  method FillCell(ids: array2<int>, s: Search, candidate: int, c: Cell, found0: seq<Tally>, minsiz: int,
                  ghost was: map<Cell, int>, ghost tr0: FillTrace)
    returns (added: bool, found: seq<Tally>, ghost tr: FillTrace)
    requires Inside(ids, c) && Scan(ids, s, candidate, was, tr0, found0, minsiz)
    modifies ids
    ensures Scan(ids, s, candidate, was, tr, found, minsiz) && tr.left <= tr0.left
    ensures was[c] == candidate ==> c !in tr.left
    ensures if added then |found| > 0 else found == found0
  {
    added, found, tr := false, found0, tr0;
    if ids[c.j, c.i] != candidate { return; }
    ghost var mid, w := Snapshot(ids), WorldOf(ids, s, c);
    WorldInChain(ids, s, was, tr0.left, c);
    ghost var left, order;
    var t;
    t, left, order := FloodFillGen(ids, s, c);
    FillResult(w, left, order);
    MarkedSince(ids, was, mid, tr0.left, left);
    ghost var f := Fill(w, left, order);
    ChainMore(was, s, candidate, tr0.fills, f);
    ReportsMore(s, found0, Orders(tr0.fills), minsiz, t, order);
    tr := FillTrace(tr0.fills + [f], left);
    if t.n >= minsiz { added, found := true, found0 + [t]; }
  }

  /** The inner loop. */
  method FillRow(ids: array2<int>, s: Search, candidate: int, step: nat, j: nat, found0: seq<Tally>, minsiz: int,
                 nmax: int, ghost was: map<Cell, int>, ghost tr0: FillTrace)
    returns (full: bool, found: seq<Tally>, ghost tr: FillTrace)
    requires step > 0 && j < ids.Length0 && j % step == 0 && Scan(ids, s, candidate, was, tr0, found0, minsiz)
    requires Passed(was, candidate, step, tr0.left, 0, j) && (|found0| == 0 || |found0| < nmax)
    modifies ids
    ensures Scan(ids, s, candidate, was, tr, found, minsiz)
    ensures full ==> |found| > 0 && |found| >= nmax
    ensures !full ==> Passed(was, candidate, step, tr.left, 0, j + 1) && (|found| == 0 || |found| < nmax)
  {
    full, found, tr := false, found0, tr0;
    var i: nat := 0;
    while i < ids.Length1
      invariant i % step == 0 && Scan(ids, s, candidate, was, tr, found, minsiz)
      invariant Passed(was, candidate, step, tr.left, i, j) && (|found| == 0 || |found| < nmax)
    {
      var added;
      added, found, tr := FillCell(ids, s, candidate, Cell(i, j), found, minsiz, was, tr);
      if added && |found| >= nmax { return true, found, tr; }
      PassedStep(was, candidate, step, tr.left, i, j);
      i := i + step;
    }
    RowPassed(ids, was, candidate, step, tr.left, i, j);
  }

  /** Cells between two steps are not visited. */
  lemma PassedStep(was: map<Cell, int>, candidate: int, step: nat, left: set<Cell>, i: nat, j: nat)
    requires step > 0 && i % step == 0 && Passed(was, candidate, step, left, i, j)
    requires Cell(i, j) in was && (was[Cell(i, j)] == candidate ==> Cell(i, j) !in left)
    ensures Passed(was, candidate, step, left, i + step, j) && (i + step) % step == 0
  {
    NextMultiple(i, step);
    forall c | Stop(was, candidate, step, c) && Before(c, i + step, j) ensures c !in left {
      if c.j == j && c.i >= i { BetweenSteps(c.i, i, step); }
    }
  }

  lemma NextMultiple(i: int, step: nat)
    requires step > 0 && i % step == 0
    ensures (i + step) % step == 0
  {
    ModAddMultiple(i, 1, step);
  }

  lemma BetweenSteps(x: int, i: int, step: nat)
    requires step > 0 && i % step == 0 && x % step == 0 && i <= x < i + step
    ensures x == i
  {
    var k := CongruentDifference(x, i, step);
    MultipleBounds(k, step);
  }

  lemma RowPassed(ids: array2<int>, was: map<Cell, int>, candidate: int, step: nat, left: set<Cell>, i: nat, j: nat)
    requires step > 0 && i >= ids.Length1 && Marked(ids, was, left) && Passed(was, candidate, step, left, i, j)
    ensures Passed(was, candidate, step, left, 0, j + 1)
  {
  }

  /** The scan loops of `getBiomeCenters` on a prepared grid: the fills are disjoint and
      exact whatever the tolerance and the step; those of at least minsiz cells are
      reported, up to nmax of them; and unless the output is full every candidate at a
      step has been filled from or marked by a fill. */
  method ReportFills(ids: array2<int>, s: Search, candidate: int, step: nat, minsiz0: int, nmax: int)
    returns (found: seq<Tally>, ghost fills: seq<Fill>, ghost left: set<Cell>)
    requires s.tol > 0 && step > 0 && candidate != INT_MAX
    requires forall i, j :: 0 <= i < ids.Length1 && 0 <= j < ids.Length0 ==> ids[j, i] != INT_MAX
    modifies ids
    ensures Chain(old(Snapshot(ids)), s, candidate, fills, left)
    ensures Reports(s, found, Orders(fills), if minsiz0 <= 0 then 1 else minsiz0)
    ensures |found| == 0 || |found| < nmax ==> Passed(old(Snapshot(ids)), candidate, step, left, 0, ids.Length0)
  {
    var minsiz := if minsiz0 <= 0 then 1 else minsiz0;
    ghost var was := Snapshot(ids);
    ghost var tr := FillTrace([], was.Keys);
    found := [];
    var j: nat := 0;
    while j < ids.Length0
      invariant j % step == 0 && Scan(ids, s, candidate, was, tr, found, minsiz)
      invariant Passed(was, candidate, step, tr.left, 0, j) && (|found| == 0 || |found| < nmax)
    {
      var full;
      full, found, tr := FillRow(ids, s, candidate, step, j, found, minsiz, nmax, was, tr);
      fills, left := tr.fills, tr.left;
      if full { return; }
      RowsSkipped(ids, was, candidate, step, left, j);
      j := j + step;
    }
    fills, left := tr.fills, tr.left;
    AllPassed(ids, was, candidate, step, left, j);
  }

  lemma RowsSkipped(ids: array2<int>, was: map<Cell, int>, candidate: int, step: nat, left: set<Cell>, j: nat)
    requires step > 0 && j % step == 0 && Marked(ids, was, left) && Passed(was, candidate, step, left, 0, j + 1)
    ensures Passed(was, candidate, step, left, 0, j + step) && (j + step) % step == 0
  {
    NextMultiple(j, step);
    forall c | Stop(was, candidate, step, c) && Before(c, 0, j + step) ensures c !in left {
      if j <= c.j < j + step { BetweenSteps(c.j, j, step); }
    }
  }

  lemma AllPassed(ids: array2<int>, was: map<Cell, int>, candidate: int, step: nat, left: set<Cell>, j: nat)
    requires step > 0 && j >= ids.Length0 && Marked(ids, was, left) && Passed(was, candidate, step, left, 0, j)
    ensures Passed(was, candidate, step, left, 0, ids.Length0)
  {
  }
}
