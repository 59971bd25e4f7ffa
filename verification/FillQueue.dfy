/** The stack of pending cells of a flood fill: in what order a cell queues its
    neighbours, and why the stack never holds more entries than the grid has cells. */
module FillQueue {
  import opened Arith

  datatype Cell = Cell(i: int, j: int)

  /** A pending cell with the number of non-matching cells just before it. */
  datatype Entry = Entry(cell: Cell, d: nat)

  function Up(c: Cell): Cell { Cell(c.i, c.j - 1) }
  function Down(c: Cell): Cell { Cell(c.i, c.j + 1) }
  function Left(c: Cell): Cell { Cell(c.i - 1, c.j) }
  function Right(c: Cell): Cell { Cell(c.i + 1, c.j) }

  ghost function IfPending(pending: set<Cell>, c: Cell, d: nat): seq<Entry> {
    if c in pending then [Entry(c, d)] else []
  }

  /** The entries that a cell pushes, in the order up, down, left, right. */
  ghost function Pushed(pending: set<Cell>, c: Cell, d: nat): seq<Entry> {
    IfPending(pending, Up(c), d) + IfPending(pending, Down(c), d)
    + IfPending(pending, Left(c), d) + IfPending(pending, Right(c), d)
  }

  // --------------------------------------------------------------- a key for every entry

  /** Each entry can be charged to a key of its own: one pushed up or down to the edge it
      crosses; one pushed left to the key of the entry by which its source was reached;
      and one pushed right, which is popped next, to a single key. */
  datatype Key = First | Aside | Edge(upper: Cell)

  predicate InGrid(sx: nat, sz: nat, c: Cell) {
    0 <= c.i < sx && 0 <= c.j < sz
  }

  /** An edge was crossed from one of its ends, which is no longer pending. */
  ghost predicate Fits(sx: nat, sz: nat, pending: set<Cell>, e: Entry, key: Key) {
    match key
    case First => true
    case Aside => e.cell.i > 0 && InGrid(sx, sz, e.cell) && Left(e.cell) !in pending
    case Edge(c) => InGrid(sx, sz, c) && InGrid(sx, sz, Down(c)) && !(c in pending && Down(c) in pending)
  }

  ghost predicate Distinct<T>(s: seq<T>) {
    forall a, b :: 0 <= a < b < |s| ==> s[a] != s[b]
  }

  /** Only the top of the stack was pushed right. */
  ghost predicate Keyed(sx: nat, sz: nat, pending: set<Cell>, queue: seq<Entry>, keys: seq<Key>) {
    && |keys| == |queue| && Distinct(keys)
    && (forall k :: 0 <= k < |queue| ==> Fits(sx, sz, pending, queue[k], keys[k]))
    && (forall k :: 0 <= k < |queue| - 1 ==> keys[k] != Aside)
  }

  lemma KeyedStart(sx: nat, sz: nat, pending: set<Cell>, e: Entry)
    ensures Keyed(sx, sz, pending, [e], [First])
  {
  }

  /** Popping an entry, and marking cells, keeps the keys of the others. */
  lemma KeyedPop(sx: nat, sz: nat, pending: set<Cell>, pending': set<Cell>, rest: seq<Entry>, e: Entry, keys: seq<Key>)
    requires Keyed(sx, sz, pending, rest + [e], keys) && pending' <= pending
    ensures Keyed(sx, sz, pending', rest, keys[..|rest|]) && Aside !in keys[..|rest|] && keys[|rest|] !in keys[..|rest|]
    ensures Fits(sx, sz, pending, e, keys[|rest|])
  {
    var queue := rest + [e];
    assert queue[|rest|] == e;
    forall k | 0 <= k < |rest| ensures Fits(sx, sz, pending', rest[k], keys[k]) {
      assert queue[k] == rest[k];
    }
  }

  /** One more entry with a new key. */
  lemma KeyedPush(sx: nat, sz: nat, pending: set<Cell>, queue: seq<Entry>, keys: seq<Key>, e: Entry, key: Key)
    requires Keyed(sx, sz, pending, queue, keys) && Aside !in keys && key !in keys && Fits(sx, sz, pending, e, key)
    ensures Keyed(sx, sz, pending, queue + [e], keys + [key])
  {
    var q, ks := queue + [e], keys + [key];
    forall k | 0 <= k < |q| ensures Fits(sx, sz, pending, q[k], ks[k]) {
      if k < |queue| { assert q[k] == queue[k]; }
    }
  }

  /** The same for an entry that is pushed only if its cell is pending. */
  lemma KeyedPushIf(sx: nat, sz: nat, pending: set<Cell>, queue: seq<Entry>, keys: seq<Key>, c: Cell, d: nat, key: Key)
    returns (keys': seq<Key>)
    requires Keyed(sx, sz, pending, queue, keys) && Aside !in keys
    requires c in pending ==> key !in keys && Fits(sx, sz, pending, Entry(c, d), key)
    ensures Keyed(sx, sz, pending, queue + IfPending(pending, c, d), keys')
    ensures keys' == keys || (c in pending && keys' == keys + [key])
  {
    if c in pending {
      KeyedPush(sx, sz, pending, queue, keys, Entry(c, d), key);
      keys' := keys + [key];
    } else {
      assert queue + [] == queue;
      keys' := keys;
    }
  }

  ghost predicate WithinGrid(sx: nat, sz: nat, cells: set<Cell>) {
    forall c :: c in cells ==> InGrid(sx, sz, c)
  }

  /** Edges at a cell that is marked only now are not yet charged. */
  lemma FreshEdge(sx: nat, sz: nat, pending: set<Cell>, queue: seq<Entry>, keys: seq<Key>, c: Cell)
    requires Keyed(sx, sz, pending, queue, keys) && c in pending && Down(c) in pending
    ensures Edge(c) !in keys
  {
  }

  /** The popped cell is marked and its pending neighbours are pushed. */
  lemma KeyedVisit(sx: nat, sz: nat, pending: set<Cell>, rest: seq<Entry>, e: Entry, d: nat, keys: seq<Key>)
    returns (keys': seq<Key>)
    requires Keyed(sx, sz, pending, rest + [e], keys) && e.cell in pending && WithinGrid(sx, sz, pending)
    ensures Keyed(sx, sz, pending - {e.cell}, rest + Pushed(pending - {e.cell}, e.cell, d), keys')
  {
    var c, left := e.cell, pending - {e.cell};
    var own := keys[|rest|];
    KeyedPop(sx, sz, pending, left, rest, e, keys);
    var ks := keys[..|rest|];
    if Up(c) in left { FreshEdge(sx, sz, pending, rest + [e], keys, Up(c)); }
    if Down(c) in left { FreshEdge(sx, sz, pending, rest + [e], keys, c); }
    var k1 := KeyedPushIf(sx, sz, left, rest, ks, Up(c), d, Edge(Up(c)));
    var q1 := rest + IfPending(left, Up(c), d);
    var k2 := KeyedPushIf(sx, sz, left, q1, k1, Down(c), d, Edge(c));
    var q2 := q1 + IfPending(left, Down(c), d);
    OwnKeyIsFree(sx, sz, pending, e, own, ks, k1, k2);
    var k3 := KeyedPushIf(sx, sz, left, q2, k2, Left(c), d, own);
    var q3 := q2 + IfPending(left, Left(c), d);
    keys' := KeyedPushIf(sx, sz, left, q3, k3, Right(c), d, Aside);
    assert q3 + IfPending(left, Right(c), d) == rest + Pushed(left, c, d);
  }

  /** The key of the popped entry passes to the entry on the left; an entry that was
      pushed right has no pending cell there. */
  lemma OwnKeyIsFree(sx: nat, sz: nat, pending: set<Cell>, e: Entry, own: Key, ks: seq<Key>, k1: seq<Key>, k2: seq<Key>)
    requires Fits(sx, sz, pending, e, own) && own !in ks && e.cell in pending
    requires k1 == ks || (Up(e.cell) in pending && k1 == ks + [Edge(Up(e.cell))])
    requires k2 == k1 || (Down(e.cell) in pending && k2 == k1 + [Edge(e.cell)])
    ensures own !in k2
    ensures own == Aside ==> Left(e.cell) !in pending
    ensures forall c :: Fits(sx, sz, pending, e, own) && own != Aside ==>
      Fits(sx, sz, pending - {e.cell}, Entry(c, 0), own)
  {
  }

  // ----------------------------------------------------------------------- the bound

  /** Edges by the index of their upper end, then the two other keys. */
  function Code(sx: nat, sz: nat, key: Key): int
    requires sz > 0
  {
    match key
    case Edge(c) => c.j * sx + c.i
    case First => (sz - 1) * sx
    case Aside => (sz - 1) * sx + 1
  }

  /** Numbers of keys are different, and below the number of cells. */
  lemma CodeRange(sx: nat, sz: nat, pending: set<Cell>, e: Entry, key: Key)
    requires sx > 0 && sz > 0 && Fits(sx, sz, pending, e, key)
    ensures 0 <= Code(sx, sz, key) < sz * sx
  {
    Distribute(sz - 1, 1, sx);
    match key
    case Edge(c) =>
      MulMonotone(c.j + 1, sz - 1, sx, sx);
      Distribute(c.j, 1, sx);
      MulMonotone(0, c.j, 0, sx);
    case First => MulMonotone(0, sz - 1, 0, sx);
    case Aside => MulMonotone(0, sz - 1, 0, sx);
  }

  lemma CodeDiffers(sx: nat, sz: nat, pending: set<Cell>, e: Entry, key: Key, e': Entry, key': Key)
    requires sx > 0 && sz > 0 && Fits(sx, sz, pending, e, key) && Fits(sx, sz, pending, e', key') && key != key'
    ensures Code(sx, sz, key) != Code(sx, sz, key')
  {
    if key.Edge? && key'.Edge? {
      RowMajor(key.upper.i, key.upper.j, sx);
      RowMajor(key'.upper.i, key'.upper.j, sx);
    } else {
      if key.Edge? { EdgeBelow(sx, sz, key.upper); }
      if key'.Edge? { EdgeBelow(sx, sz, key'.upper); }
    }
  }

  lemma EdgeBelow(sx: nat, sz: nat, c: Cell)
    requires InGrid(sx, sz, c) && InGrid(sx, sz, Down(c))
    ensures c.j * sx + c.i < (sz - 1) * sx
  {
    MulMonotone(c.j + 1, sz - 1, sx, sx);
    Distribute(c.j, 1, sx);
  }

  /** Different numbers below n are at most n many. */
  lemma {:induction false} Pigeonhole(s: seq<int>, n: nat)
    requires forall k :: 0 <= k < |s| ==> 0 <= s[k] < n
    requires forall a, b :: 0 <= a < b < |s| ==> s[a] != s[b]
    ensures |s| <= n
    decreases n
  {
    var first := if |s| > 0 then s[0] else 0;
    if n == 0 {
      assert |s| > 0 ==> 0 <= first < n;
    } else if n - 1 in s {
      var k :| 0 <= k < |s| && s[k] == n - 1;
      var t := s[..k] + s[k + 1..];
      forall a | 0 <= a < |t| ensures 0 <= t[a] < n - 1 {
        assert t[a] == if a < k then s[a] else s[a + 1];
      }
      forall a, b | 0 <= a < b < |t| ensures t[a] != t[b] {
        assert t[a] == if a < k then s[a] else s[a + 1];
        assert t[b] == if b < k then s[b] else s[b + 1];
      }
      Pigeonhole(t, n - 1);
    } else {
      Pigeonhole(s, n - 1);
    }
  }

  /** The stack has room in an array with one place for every cell of the grid. */
  lemma KeyedBound(sx: nat, sz: nat, pending: set<Cell>, queue: seq<Entry>, keys: seq<Key>)
    requires sx > 0 && sz > 0 && Keyed(sx, sz, pending, queue, keys)
    ensures |queue| <= sz * sx
  {
    var codes := seq(|keys|, k requires 0 <= k < |keys| => Code(sx, sz, keys[k]));
    MulMonotone(0, sz, 0, sx);
    forall k | 0 <= k < |codes| ensures 0 <= codes[k] < sz * sx {
      CodeRange(sx, sz, pending, queue[k], keys[k]);
    }
    forall a, b | 0 <= a < b < |codes| ensures codes[a] != codes[b] {
      CodeDiffers(sx, sz, pending, queue[a], keys[a], queue[b], keys[b]);
    }
    Pigeonhole(codes, sz * sx);
  }
}
