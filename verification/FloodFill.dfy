/** Biome areas by flood fill with a gap tolerance, and the scan that collects them
    (finders.c). */
module FloodFill {
  import opened Arith
  import opened FillQueue

  const INT_MAX := 0x7fff_ffff

  predicate Adjacent(a: Cell, b: Cell) {
    || (b.i == a.i && (b.j == a.j - 1 || b.j == a.j + 1))
    || (b.j == a.j && (b.i == a.i - 1 || b.i == a.i + 1))
  }

  // ------------------------------------------------------------- what a fill works on

  /** Grid size, the cells not yet marked when the fill starts, the matching cells, the
      start cell and the tolerance. */
  datatype World = World(sx: nat, sz: nat, free: set<Cell>, good: set<Cell>, start: Cell, tol: nat)
  {
    predicate InGrid(c: Cell) {
      0 <= c.i < sx && 0 <= c.j < sz
    }

    /** Number of non-matching cells at the end of a path. */
    function Trail(p: seq<Cell>): nat {
      if p == [] || p[|p| - 1] in good then 0 else 1 + Trail(p[..|p| - 1])
    }

    /** A path of 4-steps over initially unmarked cells from the start, on which no `tol`
        non-matching cells follow each other. */
    ghost predicate Walk(p: seq<Cell>) {
      && |p| > 0 && p[0] == start && p[|p| - 1] in free && Trail(p) < tol
      && (|p| > 1 ==> Adjacent(p[|p| - 2], p[|p| - 1]) && Walk(p[..|p| - 1]))
    }

    ghost predicate ReachedBy(c: Cell, p: seq<Cell>) {
      Walk(p) && p[|p| - 1] == c
    }

    ghost predicate Reached(c: Cell) {
      exists p :: ReachedBy(c, p)
    }

    /** A pending cell is the start, or adjacent to the end of a walk with d gaps. */
    ghost predicate Arrives(e: Entry) {
      || (e.cell == start && e.d == 0)
      || exists p :: Walk(p) && Adjacent(p[|p| - 1], e.cell) && e.d == Trail(p)
    }
  }

  lemma {:induction false} WalkFree(w: World, p: seq<Cell>, k: nat)
    requires w.Walk(p) && k < |p|
    ensures p[k] in w.free
  {
    if k < |p| - 1 { WalkFree(w, p[..|p| - 1], k); }
  }

  /** Stepping onto a matching cell, or onto one more non-matching cell within the
      tolerance, extends a walk. */
  lemma ArriveWalk(w: World, e: Entry) returns (p: seq<Cell>)
    requires w.Arrives(e) && e.cell in w.free && w.tol > 0
    requires e.cell in w.good || e.d + 1 < w.tol
    ensures w.ReachedBy(e.cell, p)
    ensures w.Trail(p) == if e.cell in w.good then 0 else e.d + 1
  {
    if e.cell == w.start && e.d == 0 {
      p := [e.cell];
      assert p[..0] == [];
    } else {
      var q :| w.Walk(q) && Adjacent(q[|q| - 1], e.cell) && e.d == w.Trail(q);
      p := q + [e.cell];
      assert p[..|p| - 1] == q;
    }
  }

  // ---------------------------------------------------------------------- fill state

  function Cells(queue: seq<Entry>): (s: set<Cell>) {
    set e | e in queue :: e.cell
  }

  /** Sums of the world coordinates of a list of cells. */
  function SumX(s: seq<Cell>, x0: int): int {
    if s == [] then 0 else SumX(s[..|s| - 1], x0) + (x0 + s[|s| - 1].i)
  }

  function SumZ(s: seq<Cell>, z0: int): int {
    if s == [] then 0 else SumZ(s[..|s| - 1], z0) + (z0 + s[|s| - 1].j)
  }

  /** Neighbours inside the grid are marked already or wait in the queue. */
  ghost predicate Handled(w: World, unmarked: set<Cell>, queue: seq<Entry>, c: Cell) {
    forall nb :: Adjacent(c, nb) && w.InGrid(nb) && nb in unmarked ==> nb in Cells(queue)
  }

  /** `order` lists the counted cells: the matching ones marked by this fill. */
  ghost predicate FillState(w: World, unmarked: set<Cell>, queue: seq<Entry>, order: seq<Cell>) {
    && w.tol > 0 && unmarked <= w.free
    && Queueable(w, queue)
    && Distinct(order) && (forall c :: c in order <==> c in w.free && c !in unmarked && c in w.good)
    && (forall c :: c in order ==> w.Reached(c) && Handled(w, unmarked, queue, c))
    && (w.start in unmarked ==> w.start in Cells(queue))
  }

  lemma FillStart(w: World)
    requires w.tol > 0 && w.InGrid(w.start)
    ensures FillState(w, w.free, [Entry(w.start, 0)], [])
  {
    assert [Entry(w.start, 0)][0].cell == w.start;
  }

  lemma CellsAppend(a: seq<Entry>, b: seq<Entry>)
    ensures Cells(a + b) == Cells(a) + Cells(b)
  {
  }

  lemma CellsPush(a: seq<Entry>, e: Entry)
    ensures Cells(a + [e]) == Cells(a) + {e.cell}
  {
    CellsAppend(a, [e]);
    assert [e][0].cell in Cells([e]);
  }

  /** Dropping an entry for a marked cell. */
  lemma DropMarked(w: World, unmarked: set<Cell>, rest: seq<Entry>, e: Entry, order: seq<Cell>)
    requires FillState(w, unmarked, rest + [e], order) && e.cell !in unmarked
    ensures FillState(w, unmarked, rest, order)
  {
    CellsPush(rest, e);
    assert forall k :: 0 <= k < |rest| ==> (rest + [e])[k] == rest[k];
  }

  /** Handled neighbours stay handled when an entry's cell is marked and others queued. */
  lemma HandledKept(w: World, unmarked: set<Cell>, rest: seq<Entry>, e: Entry, more: seq<Entry>, c: Cell)
    requires Handled(w, unmarked, rest + [e], c)
    ensures Handled(w, unmarked - {e.cell}, rest + more, c)
  {
    CellsPush(rest, e);
    CellsAppend(rest, more);
  }

  ghost predicate Queueable(w: World, more: seq<Entry>) {
    forall k :: 0 <= k < |more| ==> w.InGrid(more[k].cell) && w.Arrives(more[k])
  }

  lemma QueueableReplace(w: World, rest: seq<Entry>, e: Entry, more: seq<Entry>)
    requires Queueable(w, rest + [e]) && Queueable(w, more)
    ensures Queueable(w, rest + more) && w.Arrives(e) && w.InGrid(e.cell)
  {
    assert forall k :: 0 <= k < |rest| ==> (rest + [e])[k] == rest[k];
    assert (rest + [e])[|rest|] == e;
  }

  /** Marking the popped cell, which does not match, and queueing `more`. */
  lemma MarkOnly(w: World, unmarked: set<Cell>, rest: seq<Entry>, e: Entry, order: seq<Cell>, more: seq<Entry>)
    requires FillState(w, unmarked, rest + [e], order) && e.cell in unmarked && e.cell !in w.good
    requires Queueable(w, more)
    ensures FillState(w, unmarked - {e.cell}, rest + more, order)
  {
    QueueableReplace(w, rest, e, more);
    forall c | c in order ensures Handled(w, unmarked - {e.cell}, rest + more, c) {
      HandledKept(w, unmarked, rest, e, more, c);
    }
    CellsPush(rest, e);
    CellsAppend(rest, more);
  }

  /** Marking and counting the popped cell, and queueing its unmarked neighbours. */
  lemma MarkCounted(w: World, unmarked: set<Cell>, rest: seq<Entry>, e: Entry, order: seq<Cell>, more: seq<Entry>)
    requires FillState(w, unmarked, rest + [e], order) && e.cell in unmarked && e.cell in w.good
    requires Queueable(w, more) && Handled(w, unmarked - {e.cell}, more, e.cell)
    ensures FillState(w, unmarked - {e.cell}, rest + more, order + [e.cell])
  {
    QueueableReplace(w, rest, e, more);
    CellsPush(rest, e);
    CellsAppend(rest, more);
    forall c | c in order ensures Handled(w, unmarked - {e.cell}, rest + more, c) {
      HandledKept(w, unmarked, rest, e, more, c);
    }
    var p := ArriveWalk(w, e);
    assert w.Reached(e.cell);
    AppendDistinct(order, e.cell);
  }

  lemma AppendDistinct(order: seq<Cell>, c: Cell)
    requires Distinct(order) && c !in order
    ensures Distinct(order + [c]) && forall x :: x in order + [c] <==> x in order || x == c
  {
  }

  /** The neighbours queued from a cell at the end of a walk. */
  lemma NeighboursArrive(w: World, e: Entry, d: nat, more: seq<Entry>)
    requires w.Arrives(e) && e.cell in w.free && w.tol > 0
    requires if e.cell in w.good then d == 0 else d == e.d + 1 < w.tol
    requires forall k :: 0 <= k < |more| ==> Adjacent(e.cell, more[k].cell) && more[k].d == d
    ensures forall k :: 0 <= k < |more| ==> w.Arrives(more[k])
  {
    var p := ArriveWalk(w, e);
    assert w.Walk(p);
  }

  // ------------------------------------------------------------- what a fill achieves

  /** When the queue is empty: the counted cells are matching cells reached within the
      tolerance, each counted once, and none has an unmarked neighbour left. */
  lemma FillResult(w: World, unmarked: set<Cell>, order: seq<Cell>)
    requires FillState(w, unmarked, [], order)
    ensures Distinct(order)
    ensures forall c :: c in order ==> c in w.free && c in w.good && w.Reached(c)
    ensures forall c, nb :: c in order && Adjacent(c, nb) && w.InGrid(nb) ==> nb !in unmarked
    ensures w.start !in unmarked
  {
    assert forall c :: c in order ==> Handled(w, unmarked, [], c);
  }

  /** With tolerance 1 the counted cells are exactly those connected to the start through
      unmarked matching cells. */
  lemma UnitTolerance(w: World, unmarked: set<Cell>, order: seq<Cell>)
    requires FillState(w, unmarked, [], order) && w.tol == 1
    requires forall c :: c in w.free ==> w.InGrid(c)
    ensures forall c :: c in order <==> w.Reached(c)
  {
    forall c ensures c in order <==> w.Reached(c) {
      if w.Reached(c) {
        var p :| w.ReachedBy(c, p);
        WalkCounted(w, unmarked, order, p);
      }
    }
  }

  lemma {:induction false} WalkCounted(w: World, unmarked: set<Cell>, order: seq<Cell>, p: seq<Cell>)
    requires FillState(w, unmarked, [], order) && w.tol == 1 && w.Walk(p)
    requires forall c :: c in w.free ==> w.InGrid(c)
    ensures p[|p| - 1] in order
  {
    if |p| > 1 {
      var q := p[..|p| - 1];
      WalkCounted(w, unmarked, order, q);
      assert Handled(w, unmarked, [], q[|q| - 1]);
    }
  }

  // ------------------------------------------------------------------- the fill itself

  /** The searched area: world position of cell (0, 0), the biome looked for, the
      tolerance, and whether the biome of a cell is sampled anew (1.18 and later) instead
      of read from the grid. */
  datatype Search = Search(x: int, z: int, match_: int, tol: nat, resample: bool, biomeAt: (int, int) -> int)
  {
    function Biome(c: Cell, stored: int): int {
      if resample then biomeAt(x + c.i, z + c.j) else stored
    }
  }

  ghost function UnmarkedCells(ids: array2<int>): set<Cell>
    reads ids
  {
    set i: int, j: int | 0 <= i < ids.Length1 && 0 <= j < ids.Length0 && ids[j, i] != INT_MAX :: Cell(i, j)
  }

  ghost function MatchingCells(ids: array2<int>, s: Search): set<Cell>
    reads ids
  {
    set i: int, j: int | 0 <= i < ids.Length1 && 0 <= j < ids.Length0 && ids[j, i] != INT_MAX
      && s.Biome(Cell(i, j), ids[j, i]) == s.match_ :: Cell(i, j)
  }

  ghost function WorldOf(ids: array2<int>, s: Search, start: Cell): World
    reads ids
  {
    World(ids.Length1, ids.Length0, UnmarkedCells(ids), MatchingCells(ids, s), start, s.tol)
  }

  predicate Inside(ids: array2<int>, c: Cell) {
    0 <= c.i < ids.Length1 && 0 <= c.j < ids.Length0
  }

  /** The contents of the grid. */
  ghost function Snapshot(ids: array2<int>): map<Cell, int>
    reads ids
  {
    map i: int, j: int | 0 <= i < ids.Length1 && 0 <= j < ids.Length0 :: Cell(i, j) := ids[j, i]
  }

  /** The unmarked cells still hold their entries of `was`, all others are marked. */
  ghost predicate Marked(ids: array2<int>, was: map<Cell, int>, unmarked: set<Cell>)
    reads ids
  {
    && unmarked <= was.Keys
    && (forall c :: c in was <==> Inside(ids, c))
    && (forall c :: c in was ==> ids[c.j, c.i] == if c in unmarked then was[c] else INT_MAX)
    && (forall c :: c in unmarked ==> was[c] != INT_MAX)
  }

  predicate Pending(ids: array2<int>, c: Cell)
    reads ids
  {
    Inside(ids, c) && ids[c.j, c.i] != INT_MAX
  }

  /** The entries queued from c: neighbours with d gaps, among them all pending ones. */
  ghost predicate NeighbourEntries(pending: set<Cell>, c: Cell, d: nat, more: seq<Entry>) {
    && (forall k :: 0 <= k < |more| ==> Adjacent(c, more[k].cell) && more[k].d == d && more[k].cell in pending)
    && (forall nb :: Adjacent(c, nb) && nb in pending ==> nb in Cells(more))
  }

  lemma PushedAreNeighbours(pending: set<Cell>, c: Cell, d: nat)
    ensures NeighbourEntries(pending, c, d, Pushed(pending, c, d))
  {
    var up, down := IfPending(pending, Up(c), d), IfPending(pending, Down(c), d);
    var left, right := IfPending(pending, Left(c), d), IfPending(pending, Right(c), d);
    CellsAppend(up, down);
    CellsAppend(up + down, left);
    CellsAppend(up + down + left, right);
  }

  /** Cells that are pending in the grid, as a set. */
  ghost predicate PendingIn(ids: array2<int>, pending: set<Cell>)
    reads ids
  {
    forall c :: Pending(ids, c) <==> c in pending
  }

  /** One neighbour: pushed if it lies in the grid and is not marked. */
  method PushIf(ids: array2<int>, c: Cell, d: nat, queue: array<Entry>, qn0: nat, ghost pending: set<Cell>)
    returns (qn: nat)
    requires PendingIn(ids, pending) && qn0 + |IfPending(pending, c, d)| <= queue.Length
    modifies queue
    ensures qn <= queue.Length && queue[..qn] == old(queue[..qn0]) + IfPending(pending, c, d)
  {
    qn := qn0;
    if Pending(ids, c) {
      queue[qn] := Entry(c, d);
      qn := qn + 1;
    }
  }

  /** The inner loop over the neighbours, in the order up, down, left, right. */
  method PushNeighbours(ids: array2<int>, c: Cell, d: nat, queue: array<Entry>, qn0: nat, ghost pending: set<Cell>)
    returns (qn: nat)
    requires PendingIn(ids, pending) && qn0 + |Pushed(pending, c, d)| <= queue.Length
    modifies queue
    ensures qn <= queue.Length && queue[..qn] == old(queue[..qn0]) + Pushed(pending, c, d)
  {
    qn := PushIf(ids, Up(c), d, queue, qn0, pending);
    qn := PushIf(ids, Down(c), d, queue, qn, pending);
    qn := PushIf(ids, Left(c), d, queue, qn, pending);
    qn := PushIf(ids, Right(c), d, queue, qn, pending);
  }

  datatype Tally = Tally(n: nat, sumx: int, sumz: int)

  ghost predicate Tallied(s: Search, t: Tally, order: seq<Cell>) {
    t.n == |order| && t.sumx == SumX(order, s.x) && t.sumz == SumZ(order, s.z)
  }

  lemma TallyPush(s: Search, t: Tally, order: seq<Cell>, c: Cell)
    requires Tallied(s, t, order)
    ensures Tallied(s, Tally(t.n + 1, t.sumx + (s.x + c.i), t.sumz + (s.z + c.j)), order + [c])
  {
    assert (order + [c])[..|order|] == order;
  }

  /** The stack in its array, and that it has room there. */
  ghost predicate Stacked(w: World, unmarked: set<Cell>, queue: array<Entry>, qn: nat, keys: seq<Key>)
    reads queue
  {
    && qn <= queue.Length == w.sz * w.sx && WithinGrid(w.sx, w.sz, unmarked)
    && Keyed(w.sx, w.sz, unmarked, queue[..qn], keys)
  }

  /** What a round knows of the grid, the cells counted so far and the pending ones. */
  ghost predicate Filling(ids: array2<int>, s: Search, w: World, was: map<Cell, int>, unmarked: set<Cell>,
                          queue: seq<Entry>, t: Tally, order: seq<Cell>)
    reads ids
  {
    && Marked(ids, was, unmarked) && FillState(w, unmarked, queue, order) && Tallied(s, t, order)
    && w.sx == ids.Length1 && w.sz == ids.Length0 && w.tol == s.tol
  }

  /** A pending neighbour can be queued, with its gaps. */
  lemma PushedArrive(w: World, unmarked: set<Cell>, rest: seq<Entry>, e: Entry, d: nat, order: seq<Cell>)
    requires FillState(w, unmarked, rest + [e], order) && e.cell in unmarked && w.tol > 0
    requires WithinGrid(w.sx, w.sz, unmarked)
    requires if e.cell in w.good then d == 0 else d == e.d + 1 < w.tol
    ensures FillState(w, unmarked - {e.cell}, rest + Pushed(unmarked - {e.cell}, e.cell, d),
                      if e.cell in w.good then order + [e.cell] else order)
  {
    var left := unmarked - {e.cell};
    var more := Pushed(left, e.cell, d);
    PushedAreNeighbours(left, e.cell, d);
    QueueableReplace(w, rest, e, []);
    NeighboursArrive(w, e, d, more);
    if e.cell in w.good {
      MarkCounted(w, unmarked, rest, e, order, more);
    } else {
      MarkOnly(w, unmarked, rest, e, order, more);
    }
  }

  /** One round for an unmarked cell: it is marked, counted if it matches, and its
      neighbours are queued unless too many non-matching cells came in a row. */
  method Visit(ids: array2<int>, s: Search, e: Entry, queue: array<Entry>, qn0: nat, t0: Tally, ghost w: World,
               ghost was: map<Cell, int>, ghost unmarked: set<Cell>, ghost order0: seq<Cell>, ghost keys: seq<Key>)
    returns (qn: nat, t: Tally, ghost order: seq<Cell>, ghost keys': seq<Key>)
    requires qn0 < queue.Length && queue[qn0] == e && e.cell in unmarked && w.tol > 0
    requires Filling(ids, s, w, was, unmarked, queue[..qn0 + 1], t0, order0)
    requires Stacked(w, unmarked, queue, qn0 + 1, keys)
    requires e.cell in w.good <==> s.Biome(e.cell, ids[e.cell.j, e.cell.i]) == s.match_
    modifies ids, queue
    ensures Stacked(w, unmarked - {e.cell}, queue, qn, keys')
    ensures Filling(ids, s, w, was, unmarked - {e.cell}, queue[..qn], t, order)
  {
    ghost var rest, left := queue[..qn0], unmarked - {e.cell};
    assert queue[..qn0 + 1] == rest + [e];
    var id := s.Biome(e.cell, ids[e.cell.j, e.cell.i]);
    ids[e.cell.j, e.cell.i] := INT_MAX;
    assert PendingIn(ids, left);
    var matching := id == s.match_;
    var d := if matching then 0 else e.d + 1;
    qn, t, order := qn0, t0, order0;
    if matching {
      t := Tally(t0.n + 1, t0.sumx + (s.x + e.cell.i), t0.sumz + (s.z + e.cell.j));
      TallyPush(s, t0, order0, e.cell);
      order := order0 + [e.cell];
    }
    if matching || d < s.tol {
      PushedArrive(w, unmarked, rest, e, d, order0);
      keys' := KeyedVisit(w.sx, w.sz, unmarked, rest, e, d, keys);
      GridHasCells(w, e.cell);
      KeyedBound(w.sx, w.sz, left, rest + Pushed(left, e.cell, d), keys');
      qn := PushNeighbours(ids, e.cell, d, queue, qn0, left);
    } else {
      QueueableReplace(w, rest, e, []);
      MarkOnly(w, unmarked, rest, e, order0, []);
      assert rest + [] == rest;
      KeyedPop(w.sx, w.sz, unmarked, left, rest, e, keys);
      keys' := keys[..qn0];
    }
  }

  lemma GridHasCells(w: World, c: Cell)
    requires w.InGrid(c)
    ensures w.sx > 0 && w.sz > 0
  {
  }

  /** `floodFillGen`: number of counted cells and the sums of their coordinates. The
      stack of pending cells fits an array with one place for every cell. */
  method FloodFillGen(ids: array2<int>, s: Search, start: Cell)
    returns (t: Tally, ghost unmarked: set<Cell>, ghost order: seq<Cell>)
    requires s.tol > 0 && Inside(ids, start)
    modifies ids
    ensures Marked(ids, old(Snapshot(ids)), unmarked)
    ensures FillState(old(WorldOf(ids, s, start)), unmarked, [], order) && Tallied(s, t, order)
  {
    ghost var w, was := WorldOf(ids, s, start), Snapshot(ids);
    MulMonotone(1, ids.Length0, 1, ids.Length1);
    var queue := new Entry[ids.Length0 * ids.Length1](_ => Entry(start, 0));
    var qn: nat := 1;
    t, unmarked, order := Tally(0, 0, 0), w.free, [];
    ghost var keys := [First];
    assert queue[..1] == [Entry(start, 0)];
    FillStart(w);
    KeyedStart(w.sx, w.sz, unmarked, Entry(start, 0));
    while qn > 0
      invariant Stacked(w, unmarked, queue, qn, keys)
      invariant Filling(ids, s, w, was, unmarked, queue[..qn], t, order)
      decreases unmarked, qn
    {
      qn := qn - 1;
      var e := queue[qn];
      assert queue[..qn + 1] == queue[..qn] + [e];
      QueueableReplace(w, queue[..qn], e, []);
      if ids[e.cell.j, e.cell.i] == INT_MAX {
        DropMarked(w, unmarked, queue[..qn], e, order);
        KeyedPop(w.sx, w.sz, unmarked, unmarked, queue[..qn], e, keys);
        keys := keys[..qn];
      } else {
        qn, t, order, keys := Visit(ids, s, e, queue, qn, t, w, was, unmarked, order, keys);
        unmarked := unmarked - {e.cell};
      }
    }
    assert queue[..qn] == [];
  }
}
