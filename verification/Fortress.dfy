/** The nether fortress builder (finders.c): collision test, per-type limits, a queue
    threaded through the piece list, and random picks from it. */
module Fortress {
  import opened Arith

  // ------------------------------------------------------------------ the piece table

  const FORTRESS_START: nat := 0
  const BRIDGE_STRAIGHT: nat := 1
  const BRIDGE_CROSSING: nat := 2
  const BRIDGE_FORTIFIED_CROSSING: nat := 3
  const BRIDGE_STAIRS: nat := 4
  const BRIDGE_SPAWNER: nat := 5
  const BRIDGE_CORRIDOR_ENTRANCE: nat := 6
  const CORRIDOR_STRAIGHT: nat := 7
  const CORRIDOR_CROSSING: nat := 8
  const CORRIDOR_TURN_RIGHT: nat := 9
  const CORRIDOR_TURN_LEFT: nat := 10
  const CORRIDOR_STAIRS: nat := 11
  const CORRIDOR_T_CROSSING: nat := 12
  const CORRIDOR_NETHER_WART: nat := 13
  const FORTRESS_END: nat := 14

  datatype Pos3 = Pos3(x: int, y: int, z: int)

  datatype Info = Info(offset: Pos3, size: Pos3, skip: nat, repeatable: bool, weight: nat, max: nat)

  /** `fortress_info`. */
  function InfoOf(typ: nat): Info
    requires typ <= FORTRESS_END
  {
    match typ
    case 0 => Info(Pos3(0, 0, 0), Pos3(18, 9, 18), 0, false, 0, 0)
    case 1 => Info(Pos3(-1, -3, 0), Pos3(4, 9, 18), 0, true, 30, 0)
    case 2 => Info(Pos3(-8, -3, 0), Pos3(18, 9, 18), 0, false, 10, 4)
    case 3 => Info(Pos3(-2, 0, 0), Pos3(6, 8, 6), 0, false, 10, 4)
    case 4 => Info(Pos3(-2, 0, 0), Pos3(6, 10, 6), 0, false, 10, 3)
    case 5 => Info(Pos3(-2, 0, 0), Pos3(6, 7, 8), 0, false, 5, 2)
    case 6 => Info(Pos3(-5, -3, 0), Pos3(12, 13, 12), 0, false, 5, 1)
    case 7 => Info(Pos3(-1, 0, 0), Pos3(4, 6, 4), 0, true, 25, 0)
    case 8 => Info(Pos3(-1, 0, 0), Pos3(4, 6, 4), 0, false, 15, 5)
    case 9 => Info(Pos3(-1, 0, 0), Pos3(4, 6, 4), 1, false, 5, 10)
    case 10 => Info(Pos3(-1, 0, 0), Pos3(4, 6, 4), 1, false, 5, 10)
    case 11 => Info(Pos3(-1, -7, 0), Pos3(4, 13, 9), 0, true, 10, 3)
    case 12 => Info(Pos3(-3, 0, 0), Pos3(8, 6, 8), 0, false, 7, 2)
    case 13 => Info(Pos3(-5, -3, 0), Pos3(12, 13, 12), 0, false, 5, 2)
    case 14 => Info(Pos3(-1, -3, 0), Pos3(4, 9, 7), 1, false, 0, 0)
  }

  datatype Piece = Piece(pos: Pos3, bb0: Pos3, bb1: Pos3, rot: nat, depth: nat, typ: nat)

  /** The piece of a type at an attachment point, turned by its facing. */
  function MakePiece(typ: nat, pos: Pos3, depth: nat, facing: nat): (p: Piece)
    requires typ <= FORTRESS_END && facing < 4
    ensures p.pos == pos && p.rot == facing && p.depth == depth && p.typ == typ
  {
    var d0, d1 := InfoOf(typ).offset, InfoOf(typ).size;
    var y0, y1 := pos.y + d0.y, pos.y + d0.y + d1.y;
    var (x0, z0, x1, z1) :=
      match facing
      case 0 => (pos.x + d0.x, pos.z + d0.z - d1.z, pos.x + d0.x + d1.x, pos.z + d0.z)
      case 1 => (pos.x + d0.z, pos.z + d0.x, pos.x + d0.z + d1.z, pos.z + d0.x + d1.x)
      case 2 => (pos.x + d0.x, pos.z + d0.z, pos.x + d0.x + d1.x, pos.z + d0.z + d1.z)
      case 3 => (pos.x + d0.z - d1.z, pos.z + d0.x, pos.x + d0.z, pos.z + d0.x + d1.x);
    Piece(pos, Pos3(x0, y0, z0), Pos3(x1, y1, z1), facing, depth, typ)
  }

  predicate Intersect(p: Piece, q: Piece) {
    && q.bb1.x >= p.bb0.x && q.bb0.x <= p.bb1.x
    && q.bb1.z >= p.bb0.z && q.bb0.z <= p.bb1.z
    && q.bb1.y >= p.bb0.y && q.bb0.y <= p.bb1.y
  }

  // -------------------------------------------------------------------- what is kept

  ghost predicate Apart(list: seq<Piece>) {
    forall a, b :: 0 <= a < b < |list| ==> !Intersect(list[b], list[a])
  }

  function CountType(list: seq<Piece>, typ: nat): nat {
    if list == [] then 0
    else CountType(list[..|list| - 1], typ) + if list[|list| - 1].typ == typ then 1 else 0
  }

  /** ntyp counts the pieces of each type, and no limited type exceeds its maximum. */
  ghost predicate Counted(list: seq<Piece>, ntyp: seq<nat>) {
    && |ntyp| == FORTRESS_END + 1
    && forall t :: 0 <= t <= FORTRESS_END ==>
         ntyp[t] == CountType(list, t) && (InfoOf(t).max > 0 ==> ntyp[t] <= InfoOf(t).max)
  }

  predicate Near(start: Piece, x: int, z: int) {
    -112 <= x - start.bb0.x <= 112 && -112 <= z - start.bb0.z <= 112
  }

  ghost predicate Shaped(start: Piece, p: Piece) {
    && p.rot < 4 && p.typ <= FORTRESS_END
    && p.depth <= 31 && (p.typ != FORTRESS_END ==> p.depth <= 30)
    && Near(start, p.pos.x, p.pos.z)
  }

  ghost predicate AllShaped(list: seq<Piece>) {
    |list| > 0 && forall k :: 0 <= k < |list| ==> Shaped(list[0], list[k])
  }

  // ------------------------------------------------------------- the threaded queue

  /** Following the `next` links from `at` visits q and ends (-1 is the null link). */
  ghost predicate Linked(next: seq<int>, at: nat, q: seq<nat>)
    decreases |q|
  {
    && at < |next| && next[at] == (if q == [] then -1 else q[0])
    && (q != [] ==> Linked(next, q[0], q[1..]))
  }

  ghost predicate DistinctFrom(at: nat, q: seq<nat>) {
    at !in q && forall a, b :: 0 <= a < b < |q| ==> q[a] != q[b]
  }

  /** A link outside the chain does not matter. */
  lemma {:induction false} LinkedFrame(next: seq<int>, next': seq<int>, at: nat, q: seq<nat>)
    requires Linked(next, at, q) && |next| <= |next'|
    requires next'[at] == next[at] && forall k :: k in q && k < |next| ==> next'[k] == next[k]
    ensures Linked(next', at, q)
    decreases |q|
  {
    if q != [] { LinkedFrame(next, next', q[0], q[1..]); }
  }

  function LastOf(at: nat, q: seq<nat>): nat {
    if q == [] then at else q[|q| - 1]
  }

  lemma {:induction false} LinkLast(next: seq<int>, at: nat, q: seq<nat>)
    requires Linked(next, at, q)
    ensures LastOf(at, q) < |next| && next[LastOf(at, q)] == -1
    decreases |q|
  {
    if q != [] {
      LinkLast(next, q[0], q[1..]);
      assert LastOf(at, q) == LastOf(q[0], q[1..]);
    }
  }

  /** Linking a new entry behind the last one. */
  lemma {:induction false} LinkAppend(next: seq<int>, at: nat, q: seq<nat>, k: nat)
    requires Linked(next, at, q) && DistinctFrom(at, q) && k < |next| && next[k] == -1 && k != at && k !in q
    ensures LastOf(at, q) < |next| && Linked(next[LastOf(at, q) := k], at, q + [k])
    decreases |q|
  {
    LinkLast(next, at, q);
    var next' := next[LastOf(at, q) := k];
    if q == [] {
      assert Linked(next', k, []);
      assert (q + [k])[1..] == [];
    } else {
      assert LastOf(at, q) == LastOf(q[0], q[1..]);
      LinkAppend(next, q[0], q[1..], k);
      assert (q + [k])[1..] == q[1..] + [k];
    }
  }

  /** Unlinking the first entry after `at`. */
  lemma LinkRemoveFirst(next: seq<int>, at: nat, q: seq<nat>)
    requires Linked(next, at, q) && DistinctFrom(at, q) && q != []
    ensures q[0] < |next| && Linked(next[at := next[q[0]]][q[0] := -1], at, q[1..])
  {
    var next' := next[at := next[q[0]]][q[0] := -1];
    assert Linked(next, q[0], q[1..]);
    if |q| > 1 {
      assert q[1..][0] == q[1] && q[1..][1..] == q[2..];
      assert Linked(next, q[1], q[2..]);
      forall k | k in q[2..] && k < |next| ensures next'[k] == next[k] {
        assert k in q;
      }
      assert next'[q[1]] == next[q[1]] by { assert q[1] in q; }
      LinkedFrame(next, next', q[1], q[2..]);
    }
  }

  function Without(q: seq<nat>, i: nat): seq<nat>
    requires i < |q|
  {
    q[..i] + q[i + 1..]
  }

  lemma WithoutTail(q: seq<nat>, i: nat)
    requires 0 < i < |q|
    ensures |Without(q, i)| > 0 && Without(q, i)[0] == q[0] && Without(q, i)[1..] == Without(q[1..], i - 1)
  {
    assert Without(q, i)[1..] == q[1..i] + q[i + 1..];
    assert Without(q[1..], i - 1) == q[1..i] + q[i + 1..];
  }

  /** Unlinking the i-th entry, whose predecessor is `pred`. */
  lemma {:induction false} LinkRemove(next: seq<int>, at: nat, q: seq<nat>, i: nat, pred: nat)
    requires Linked(next, at, q) && DistinctFrom(at, q) && i < |q|
    requires pred == if i == 0 then at else q[i - 1]
    ensures pred < |next| && q[i] < |next| && Linked(next[pred := next[q[i]]][q[i] := -1], at, Without(q, i))
    decreases |q|
  {
    if i == 0 {
      LinkRemoveFirst(next, at, q);
      assert Without(q, 0) == q[1..];
    } else {
      LinkRemove(next, q[0], q[1..], i - 1, pred);
      WithoutTail(q, i);
    }
  }

  // ------------------------------------------------------------------ termination measure

  function Pow4(n: nat): nat {
    if n == 0 then 1 else 4 * Pow4(n - 1)
  }

  function Rest(depth: nat): nat {
    if depth < 32 then 32 - depth else 0
  }

  /** Sum of 4^(32 - depth) over the queued pieces. */
  function Weight(list: seq<Piece>, q: seq<nat>): nat {
    if q == [] then 0
    else Weight(list, q[..|q| - 1]) + if q[|q| - 1] < |list| then Pow4(Rest(list[q[|q| - 1]].depth)) else 0
  }

  lemma {:induction false} WeightConcat(list: seq<Piece>, a: seq<nat>, b: seq<nat>)
    ensures Weight(list, a + b) == Weight(list, a) + Weight(list, b)
    decreases |b|
  {
    if b == [] {
      assert a + b == a;
    } else {
      assert (a + b)[..|a + b| - 1] == a + b[..|b| - 1];
      WeightConcat(list, a, b[..|b| - 1]);
    }
  }

  lemma WeightSingle(list: seq<Piece>, k: nat)
    requires k < |list|
    ensures Weight(list, [k]) == Pow4(Rest(list[k].depth))
  {
    assert [k][..0] == [];
  }

  lemma {:induction false} WeightFrame(list: seq<Piece>, list': seq<Piece>, q: seq<nat>)
    requires list <= list' && forall k :: 0 <= k < |q| ==> q[k] < |list|
    ensures Weight(list', q) == Weight(list, q)
    decreases |q|
  {
    if q != [] { WeightFrame(list, list', q[..|q| - 1]); }
  }

  lemma WeightWithout(list: seq<Piece>, q: seq<nat>, i: nat)
    requires i < |q| && q[i] < |list|
    ensures Weight(list, Without(q, i)) + Pow4(Rest(list[q[i]].depth)) == Weight(list, q)
  {
    assert q == q[..i] + ([q[i]] + q[i + 1..]);
    WeightConcat(list, q[..i], [q[i]] + q[i + 1..]);
    WeightConcat(list, [q[i]], q[i + 1..]);
    WeightConcat(list, q[..i], q[i + 1..]);
    WeightSingle(list, q[i]);
  }

  /** Pieces of one depth. */
  lemma {:induction false} WeightUniform(list: seq<Piece>, b: seq<nat>, depth: nat)
    requires forall k :: 0 <= k < |b| ==> b[k] < |list| && list[b[k]].depth == depth
    ensures Weight(list, b) == |b| * Pow4(Rest(depth))
    decreases |b|
  {
    if b != [] {
      WeightUniform(list, b[..|b| - 1], depth);
      Distribute(|b| - 1, 1, Pow4(Rest(depth)));
    }
  }

  // ---------------------------------------------------------------------- the builder

  /** The pieces and queue grew by at most k pieces of the given depth. */
  ghost predicate Grown(list0: seq<Piece>, q0: seq<nat>, list: seq<Piece>, q: seq<nat>, k: nat, depth: nat) {
    && list0 <= list && q0 <= q && |q| <= |q0| + k
    && forall m :: |q0| <= m < |q| ==> q[m] < |list| && list[q[m]].depth == depth
  }

  lemma GrownTwice(list0: seq<Piece>, q0: seq<nat>, list1: seq<Piece>, q1: seq<nat>,
                   list2: seq<Piece>, q2: seq<nat>, k: nat, l: nat, depth: nat)
    requires Grown(list0, q0, list1, q1, k, depth) && Grown(list1, q1, list2, q2, l, depth)
    ensures Grown(list0, q0, list2, q2, k + l, depth)
  {
  }

  lemma {:induction false} CountAppend(list: seq<Piece>, p: Piece, t: nat)
    ensures CountType(list + [p], t) == CountType(list, t) + if p.typ == t then 1 else 0
  {
    assert (list + [p])[..|list|] == list;
  }

  lemma CountedAppend(list: seq<Piece>, ntyp: seq<nat>, p: Piece)
    requires Counted(list, ntyp) && p.typ <= FORTRESS_END
    requires InfoOf(p.typ).max > 0 ==> ntyp[p.typ] < InfoOf(p.typ).max
    ensures Counted(list + [p], ntyp[p.typ := ntyp[p.typ] + 1])
  {
    forall t | 0 <= t <= FORTRESS_END
      ensures CountType(list + [p], t) == CountType(list, t) + if p.typ == t then 1 else 0
    {
      CountAppend(list, p, t);
    }
  }

  lemma ApartAppend(list: seq<Piece>, p: Piece)
    requires Apart(list) && forall k :: 0 <= k < |list| ==> !Intersect(p, list[k])
    ensures Apart(list + [p])
  {
  }

  lemma ShapedAppend(list: seq<Piece>, p: Piece)
    requires AllShaped(list) && Shaped(list[0], p)
    ensures AllShaped(list + [p])
  {
  }

  // ------------------------------------------------------------- what is chosen, on values

  /** A limited type that has reached its maximum is passed over. */
  predicate Spent(ntyp: seq<nat>, t: nat)
    requires t <= FORTRESS_END && |ntyp| == FORTRESS_END + 1
  {
    InfoOf(t).max > 0 && ntyp[t] >= InfoOf(t).max
  }

  /** Total weight of the types from t0 up to t, without those that are spent. */
  function WeightUpTo(ntyp: seq<nat>, t0: nat, t: nat): nat
    requires t0 <= t <= FORTRESS_END && |ntyp| == FORTRESS_END + 1
    decreases t - t0, ntyp
  {
    if t == t0 then 0
    else WeightUpTo(ntyp, t0, t - 1) + if Spent(ntyp, t - 1) then 0 else InfoOf(t - 1).weight
  }

  /** Some limited type of the group is left. */
  ghost predicate SomeLimited(ntyp: seq<nat>, t0: nat, t1: nat)
    requires t1 <= FORTRESS_END && |ntyp| == FORTRESS_END + 1
  {
    exists t: nat | t0 <= t < t1 :: InfoOf(t).max > 0 && !Spent(ntyp, t)
  }

  /** The types that are tried from t on for a draw of which n is left: from the type
      where the draw is used up, in order, but none if that or a later one repeats the
      last type and must not. */
  function Tried(ntyp: seq<nat>, last: nat, t: nat, t1: nat, n: int): seq<nat>
    requires t <= t1 <= FORTRESS_END && |ntyp| == FORTRESS_END + 1
    decreases t1 - t, ntyp
  {
    if t == t1 then []
    else if Spent(ntyp, t) then Tried(ntyp, last, t + 1, t1, n)
    else if n >= InfoOf(t).weight then Tried(ntyp, last, t + 1, t1, n - InfoOf(t).weight)
    else if last == t && !InfoOf(t).repeatable then []
    else [t] + Tried(ntyp, last, t + 1, t1, n - InfoOf(t).weight)
  }

  /** The first type tried is the one in whose weight interval the draw falls; nothing
      is tried if this type must not be repeated. */
  lemma {:induction false} TriedByWeight(ntyp: seq<nat>, last: nat, t0: nat, t: nat, t1: nat, n: nat) returns (hit: nat)
    requires t0 <= t < t1 <= FORTRESS_END && |ntyp| == FORTRESS_END + 1
    requires WeightUpTo(ntyp, t0, t) <= n < WeightUpTo(ntyp, t0, t1)
    ensures t <= hit < t1 && !Spent(ntyp, hit)
    ensures WeightUpTo(ntyp, t0, hit) <= n < WeightUpTo(ntyp, t0, hit + 1)
    ensures var tried := Tried(ntyp, last, t, t1, n - WeightUpTo(ntyp, t0, t));
      if last == hit && !InfoOf(hit).repeatable then tried == [] else |tried| > 0 && tried[0] == hit
    decreases t1 - t
  {
    var left := n - WeightUpTo(ntyp, t0, t);
    var used := if Spent(ntyp, t) then 0 else InfoOf(t).weight;
    assert WeightUpTo(ntyp, t0, t + 1) == WeightUpTo(ntyp, t0, t) + used;
    if left >= used {
      TriedLater(ntyp, last, t, t1, left);
      hit := TriedByWeight(ntyp, last, t0, t + 1, t1, n);
    } else {
      hit := t;
      TriedStep(ntyp, last, t, t1, left);
    }
  }

  /** A type that is spent, or whose weight the draw exceeds, is passed. */
  lemma TriedLater(ntyp: seq<nat>, last: nat, t: nat, t1: nat, n: nat)
    requires t < t1 <= FORTRESS_END && |ntyp| == FORTRESS_END + 1
    requires n >= if Spent(ntyp, t) then 0 else InfoOf(t).weight
    ensures Tried(ntyp, last, t, t1, n)
         == Tried(ntyp, last, t + 1, t1, n - if Spent(ntyp, t) then 0 else InfoOf(t).weight)
  {
  }

  lemma TriedStep(ntyp: seq<nat>, last: nat, t: nat, t1: nat, n: int)
    requires t < t1 <= FORTRESS_END && |ntyp| == FORTRESS_END + 1
    ensures var tried := Tried(ntyp, last, t, t1, n);
      if Spent(ntyp, t) then tried == Tried(ntyp, last, t + 1, t1, n)
      else if n >= InfoOf(t).weight then tried == Tried(ntyp, last, t + 1, t1, n - InfoOf(t).weight)
      else if last == t && !InfoOf(t).repeatable then tried == []
      else |tried| > 0 && tried[0] == t && tried[1..] == Tried(ntyp, last, t + 1, t1, n - InfoOf(t).weight)
  {
  }

  predicate Free(p: Piece, list: seq<Piece>) {
    forall k :: 0 <= k < |list| ==> !Intersect(p, list[k])
  }

  ghost predicate InGroup(ntyp: seq<nat>, last: nat, t: nat, t1: nat, n: int)
    requires t <= t1 <= FORTRESS_END && |ntyp| == FORTRESS_END + 1
  {
    forall k :: 0 <= k < |Tried(ntyp, last, t, t1, n)| ==> t <= Tried(ntyp, last, t, t1, n)[k] < t1
  }

  lemma {:induction false} TriedInGroup(ntyp: seq<nat>, last: nat, t: nat, t1: nat, n: int)
    requires t <= t1 <= FORTRESS_END && |ntyp| == FORTRESS_END + 1
    ensures InGroup(ntyp, last, t, t1, n)
    decreases t1 - t
  {
    if t < t1 {
      if Spent(ntyp, t) {
        TriedInGroup(ntyp, last, t + 1, t1, n);
      } else {
        TriedInGroup(ntyp, last, t + 1, t1, n - InfoOf(t).weight);
      }
    }
  }

  /** Queued and extended pieces: each piece but the one being extended is exactly one. */
  ghost predicate Sorted(count: nat, queue: seq<nat>, extended: set<nat>) {
    && DistinctFrom(0, queue)
    && (forall k :: k in queue ==> k < count)
    && (forall k: nat :: k < count ==> (k in queue <==> k !in extended))
    && (forall k :: k in extended ==> k < count)
  }

  lemma SortedAppend(count: nat, queue: seq<nat>, extended: set<nat>)
    requires count > 0 && Sorted(count, queue, extended)
    ensures Sorted(count + 1, queue + [count], extended)
  {
    var q := queue + [count];
    forall a, b | 0 <= a < b < |q| ensures q[a] != q[b] {
      assert q[a] in queue;
      assert q[a] == queue[a];
    }
    assert forall k :: k in q <==> k in queue || k == count;
  }

  lemma SortedRemove(count: nat, queue: seq<nat>, extended: set<nat>, i: nat)
    requires Sorted(count, queue, extended) && i < |queue|
    ensures Sorted(count, Without(queue, i), extended + {queue[i]})
  {
    WithoutElements(queue, i);
    assert queue[i] in queue && queue[i] < count;
    assert forall k :: k in extended + {queue[i]} <==> k in extended || k == queue[i];
  }

  lemma WithoutElements(q: seq<nat>, i: nat)
    requires i < |q| && DistinctFrom(0, q)
    ensures forall k :: k in Without(q, i) <==> k in q && k != q[i]
    ensures DistinctFrom(0, Without(q, i))
  {
    var rest := Without(q, i);
    forall k ensures k in rest <==> k in q && k != q[i] {
      if k in q && k != q[i] {
        var m :| 0 <= m < |q| && q[m] == k;
        assert k == if m < i then rest[m] else rest[m - 1];
      }
      if k in rest {
        var m :| 0 <= m < |rest| && rest[m] == k;
        assert k == if m < i then q[m] else q[m + 1];
      }
    }
    forall a, b | 0 <= a < b < |rest| ensures rest[a] != rest[b] {
      assert rest[a] == if a < i then q[a] else q[a + 1];
      assert rest[b] == if b < i then q[b] else q[b + 1];
    }
  }

  /** Attachment point and facing of the next piece: forward, left (-1) or right (+1). */
  function Attach(p: Piece, offh: int, offv: int, turn: int): (r: (Pos3, nat))
    requires p.rot < 4 && -1 <= turn <= 1
    ensures r.1 < 4
  {
    var y := p.bb0.y + offv;
    if turn == 0 then
      match p.rot
      case 0 => (Pos3(p.bb0.x + offh, y, p.bb0.z - 1), 0)
      case 1 => (Pos3(p.bb1.x + 1, y, p.bb0.z + offh), 1)
      case 2 => (Pos3(p.bb0.x + offh, y, p.bb1.z + 1), 2)
      case 3 => (Pos3(p.bb0.x - 1, y, p.bb0.z + offh), 3)
    else if turn == -1 then
      if p.rot % 2 == 1 then (Pos3(p.bb0.x + offh, y, p.bb0.z - 1), 0)
      else (Pos3(p.bb0.x - 1, y, p.bb0.z + offh), 3)
    else
      if p.rot % 2 == 1 then (Pos3(p.bb0.x + offh, y, p.bb1.z + 1), 2)
      else (Pos3(p.bb1.x + 1, y, p.bb0.z + offh), 1)
  }

  /** Where a piece may continue: offsets, turn, and whether with corridors. */
  datatype Exit = Exit(offh: int, offv: int, turn: int, corridor: bool)

  predicate Straight(e: Exit) {
    -1 <= e.turn <= 1
  }

  /** The exits of a piece in the order in which they are tried; a T crossing continues
      with corridors or bridges by the draws left and right. */
  function Exits(p: Piece, left: bool, right: bool): (s: seq<Exit>)
    ensures |s| <= 3 && (p.typ == FORTRESS_END ==> s == []) && forall k :: 0 <= k < |s| ==> Straight(s[k])
  {
    if p.typ == BRIDGE_STRAIGHT then [Exit(1, 3, 0, false)]
    else if p.typ == BRIDGE_CROSSING || p.typ == FORTRESS_START then
      [Exit(8, 3, 0, false), Exit(8, 3, -1, false), Exit(8, 3, 1, false)]
    else if p.typ == BRIDGE_FORTIFIED_CROSSING then
      [Exit(2, 0, 0, false), Exit(2, 0, -1, false), Exit(2, 0, 1, false)]
    else if p.typ == BRIDGE_STAIRS then [Exit(2, 6, 1, false)]
    else if p.typ == BRIDGE_CORRIDOR_ENTRANCE then [Exit(5, 3, 0, true)]
    else if p.typ == CORRIDOR_STRAIGHT || p.typ == CORRIDOR_STAIRS then [Exit(1, 0, 0, true)]
    else if p.typ == CORRIDOR_CROSSING then [Exit(1, 0, 0, true), Exit(1, 0, -1, true), Exit(1, 0, 1, true)]
    else if p.typ == CORRIDOR_TURN_RIGHT then [Exit(1, 0, 1, true)]
    else if p.typ == CORRIDOR_TURN_LEFT then [Exit(1, 0, -1, true)]
    else if p.typ == CORRIDOR_T_CROSSING then
      var h := if p.rot == 0 || p.rot == 3 then 5 else 1;
      [Exit(h, 0, -1, left), Exit(h, 0, 1, right)]
    else if p.typ == CORRIDOR_NETHER_WART then [Exit(5, 3, 0, true), Exit(5, 11, 0, true)]
    else []
  }

  /** First type of the group, and the one behind the last. */
  function GroupStart(corridor: bool): nat {
    if corridor then CORRIDOR_STRAIGHT else BRIDGE_STRAIGHT
  }

  function GroupEnd(corridor: bool): nat {
    if corridor then CORRIDOR_STRAIGHT + 7 else BRIDGE_STRAIGHT + 6
  }

  /** q is a piece attached to p at exit e, of the exit's group or an end piece. */
  ghost predicate AttachedAt(q: Piece, p: Piece, e: Exit)
    requires p.rot < 4 && Straight(e)
  {
    var (pos, facing) := Attach(p, e.offh, e.offv, e.turn);
    && q.typ <= FORTRESS_END && q == MakePiece(q.typ, pos, p.depth + 1, facing)
    && (q.typ == FORTRESS_END || GroupStart(e.corridor) <= q.typ < GroupEnd(e.corridor))
  }

  ghost predicate AllStraight(exits: seq<Exit>) {
    forall k :: 0 <= k < |exits| ==> Straight(exits[k])
  }

  /** The list grew by pieces at some of the exits, in their order. */
  ghost predicate GrewAt(list0: seq<Piece>, list: seq<Piece>, p: Piece, exits: seq<Exit>)
    decreases |exits|
  {
    if exits == [] || p.rot >= 4 || !AllStraight(exits) then list == list0
    else
      GrewAt(list0, list, p, exits[..|exits| - 1])
      || (|list| > 0 && AttachedAt(list[|list| - 1], p, exits[|exits| - 1])
          && GrewAt(list0, list[..|list| - 1], p, exits[..|exits| - 1]))
  }

  /** Nothing or one piece was added, at this exit. */
  ghost predicate AddedAt(list0: seq<Piece>, list: seq<Piece>, p: Piece, e: Exit)
    requires p.rot < 4 && Straight(e)
  {
    list == list0 || (|list| == |list0| + 1 && list[..|list0|] == list0 && AttachedAt(list[|list0|], p, e))
  }

  lemma GrewMore(list0: seq<Piece>, list1: seq<Piece>, list: seq<Piece>, p: Piece, exits: seq<Exit>, e: Exit)
    requires p.rot < 4 && AllStraight(exits) && Straight(e) && GrewAt(list0, list1, p, exits)
    requires AddedAt(list1, list, p, e)
    ensures AllStraight(exits + [e]) && GrewAt(list0, list, p, exits + [e])
  {
    var all := exits + [e];
    assert all[..|all| - 1] == exits && all[|all| - 1] == e;
  }

  lemma GrewNothing(list: seq<Piece>, p: Piece, exits: seq<Exit>)
    requires exits == []
    ensures GrewAt(list, list, p, exits)
  {
  }

  lemma GrewTwice(list0: seq<Piece>, list1: seq<Piece>, list: seq<Piece>, p: Piece, exits: seq<Exit>)
    requires p.rot < 4 && |exits| == 2 && AllStraight(exits)
    requires AddedAt(list0, list1, p, exits[0]) && AddedAt(list1, list, p, exits[1])
    ensures GrewAt(list0, list, p, exits)
  {
    var none, first := exits[..0], exits[..1];
    GrewNothing(list0, p, none);
    GrewMore(list0, list0, list1, p, none, exits[0]);
    assert none + [exits[0]] == first;
    GrewMore(list0, list1, list, p, first, exits[1]);
    assert first + [exits[1]] == exits;
  }

  // --------------------------------------------------------- the builder's state on values

  /** What the builder's choices depend on and change: the pieces, their numbers by type,
      the last type, and the position in the random draws. */
  datatype Builder = Builder(list: seq<Piece>, ntyp: seq<nat>, last: nat, rng: nat)
  {
    predicate Proper() {
      |list| > 0 && |ntyp| == FORTRESS_END + 1
    }

    /** After accepting a piece. */
    function Accept(p: Piece): (c: Builder)
      requires Proper() && p.typ <= FORTRESS_END
      ensures c.Proper()
    {
      Builder(list + [p], ntyp[p.typ := ntyp[p.typ] + 1], if p.typ != FORTRESS_END then p.typ else last,
              rng + InfoOf(p.typ).skip)
    }

    function Drawn(): (c: Builder)
      requires Proper()
      ensures c.Proper()
    {
      this.(rng := rng + 1)
    }
  }

  /** A place for a piece, one level deeper than the piece that it continues. */
  datatype Place = Place(pos: Pos3, depth: nat, facing: nat)

  ghost predicate Types(tried: seq<nat>) {
    forall k :: 0 <= k < |tried| ==> tried[k] <= FORTRESS_END
  }

  function PieceAt(typ: nat, at: Place): Piece
    requires typ <= FORTRESS_END && at.facing < 4
  {
    MakePiece(typ, at.pos, at.depth, at.facing)
  }

  /** The first of the tried types that fits is accepted. */
  function Placed(c: Builder, tried: seq<nat>, at: Place): (r: Builder)
    requires c.Proper() && at.facing < 4 && Types(tried)
    ensures r.Proper()
  {
    if tried == [] then c
    else if Free(PieceAt(tried[0], at), c.list) then c.Accept(PieceAt(tried[0], at))
    else Placed(c, tried[1..], at)
  }

  function Grows(c: Builder, r: Builder): bool {
    |r.list| > |c.list|
  }

  function GroupWeight(c: Builder, corridor: bool): nat
    requires c.Proper()
  {
    WeightUpTo(c.ntyp, GroupStart(corridor), GroupEnd(corridor))
  }

  /** The types tried for the next draw. */
  function TriedNext(c: Builder, tape: nat -> nat, corridor: bool): (tried: seq<nat>)
    requires c.Proper() && GroupWeight(c, corridor) > 0
    ensures Types(tried) && forall k :: 0 <= k < |tried| ==> GroupStart(corridor) <= tried[k] < GroupEnd(corridor)
  {
    var draw := tape(c.rng) % GroupWeight(c, corridor);
    TriedInGroup(c.ntyp, c.last, GroupStart(corridor), GroupEnd(corridor), draw);
    Tried(c.ntyp, c.last, GroupStart(corridor), GroupEnd(corridor), draw)
  }

  /** Up to n attempts, each with the next draw, until one adds a piece. */
  function Attempts(c: Builder, tape: nat -> nat, corridor: bool, at: Place, n: nat): (r: Builder)
    requires c.Proper() && at.facing < 4 && GroupWeight(c, corridor) > 0
    ensures r.Proper()
    decreases n, c
  {
    if n == 0 then c
    else
      var r := Placed(c.Drawn(), TriedNext(c, tape, corridor), at);
      if Grows(c, r) then r else Attempts(c.Drawn(), tape, corridor, at, n - 1)
  }

  lemma AttemptsStep(c: Builder, tape: nat -> nat, corridor: bool, at: Place, n: nat)
    requires c.Proper() && at.facing < 4 && GroupWeight(c, corridor) > 0 && n > 0
    ensures var r := Placed(c.Drawn(), TriedNext(c, tape, corridor), at);
      Attempts(c, tape, corridor, at, n) == if Grows(c, r) then r else Attempts(c.Drawn(), tape, corridor, at, n - 1)
  {
  }

  ghost predicate GroupOpen(c: Builder, corridor: bool, at: Place)
    requires c.Proper()
  {
    && Near(c.list[0], at.pos.x, at.pos.z) && SomeLimited(c.ntyp, GroupStart(corridor), GroupEnd(corridor))
    && GroupWeight(c, corridor) > 0 && at.depth <= 30
  }

  /** A piece of the group if the place is near the start and one is possible. */
  ghost function ByGroup(c: Builder, tape: nat -> nat, corridor: bool, at: Place): (r: Builder)
    requires c.Proper() && at.facing < 4
    ensures r.Proper()
  {
    if GroupOpen(c, corridor, at) then Attempts(c, tape, corridor, at, 5) else c
  }

  /** The end piece: tried where the start is near; elsewhere it only uses up its draw. */
  ghost function Closed(c: Builder, at: Place): (r: Builder)
    requires c.Proper() && at.facing < 4
    ensures r.Proper()
  {
    if Near(c.list[0], at.pos.x, at.pos.z) then Placed(c, [FORTRESS_END], at)
    else if Free(PieceAt(FORTRESS_END, at), c.list) then c.(rng := c.rng + InfoOf(FORTRESS_END).skip)
    else c
  }

  function PlaceOf(p: Piece, e: Exit): (at: Place)
    requires p.rot < 4 && Straight(e)
    ensures at.facing < 4 && at.depth == p.depth + 1
  {
    var (pos, facing) := Attach(p, e.offh, e.offv, e.turn);
    Place(pos, p.depth + 1, facing)
  }

  /** `extendFortress` on values: a piece of the group if one is possible, else the end. */
  ghost function Extension(c: Builder, tape: nat -> nat, p: Piece, e: Exit): (r: Builder)
    requires c.Proper() && p.rot < 4 && Straight(e)
    ensures r.Proper()
  {
    var r := ByGroup(c, tape, e.corridor, PlaceOf(p, e));
    if Grows(c, r) then r else Closed(r, PlaceOf(p, e))
  }

  /** Extensions at several exits, one after the other. */
  ghost function Extensions(c: Builder, tape: nat -> nat, p: Piece, exits: seq<Exit>): (r: Builder)
    requires c.Proper() && p.rot < 4 && AllStraight(exits)
    ensures r.Proper()
    decreases |exits|
  {
    if exits == [] then c
    else Extension(Extensions(c, tape, p, exits[..|exits| - 1]), tape, p, exits[|exits| - 1])
  }

  /** The draw before each exit of a T crossing: bridges with one chance in eight. */
  function WithCorridors(c: Builder, tape: nat -> nat): bool {
    tape(c.rng) % 8 != 0
  }

  function SideExit(p: Piece, turn: int, corridor: bool): Exit {
    Exit(if p.rot == 0 || p.rot == 3 then 5 else 1, 0, turn, corridor)
  }

  /** `extendFortressPiece` on values. */
  ghost function Continued(c: Builder, tape: nat -> nat, p: Piece): (r: Builder)
    requires c.Proper() && p.rot < 4
    ensures r.Proper()
  {
    if p.typ == CORRIDOR_T_CROSSING then
      var c1 := Extension(c.Drawn(), tape, p, SideExit(p, -1, WithCorridors(c, tape)));
      Extension(c1.Drawn(), tape, p, SideExit(p, 1, WithCorridors(c1, tape)))
    else Extensions(c, tape, p, Exits(p, true, true))
  }

  lemma PlacedStep(c: Builder, tried: seq<nat>, at: Place)
    requires c.Proper() && at.facing < 4 && tried != [] && Types(tried)
    ensures Placed(c, tried, at) ==
      if Free(PieceAt(tried[0], at), c.list) then c.Accept(PieceAt(tried[0], at)) else Placed(c, tried[1..], at)
  {
  }

  /** Nothing is added, or one piece with a type of the list. */
  ghost predicate AddsOne(list0: seq<Piece>, list: seq<Piece>, t0: nat, t1: nat, at: Place)
    requires t1 <= FORTRESS_END + 1 && at.facing < 4
  {
    list == list0 || exists t: nat | t0 <= t < t1 :: list == list0 + [PieceAt(t, at)]
  }

  lemma {:induction false} PlacedOne(c: Builder, tried: seq<nat>, t0: nat, t1: nat, at: Place)
    requires c.Proper() && at.facing < 4 && t1 <= FORTRESS_END + 1 && Types(tried)
    requires forall k :: 0 <= k < |tried| ==> t0 <= tried[k] < t1
    ensures AddsOne(c.list, Placed(c, tried, at).list, t0, t1, at)
    ensures Grows(c, Placed(c, tried, at)) || Placed(c, tried, at) == c
    decreases |tried|
  {
    if tried != [] { PlacedOne(c, tried[1..], t0, t1, at); }
  }

  lemma {:induction false} AttemptsAddOne(c: Builder, tape: nat -> nat, corridor: bool, at: Place, n: nat)
    requires c.Proper() && at.facing < 4 && GroupWeight(c, corridor) > 0
    ensures AddsOne(c.list, Attempts(c, tape, corridor, at, n).list, GroupStart(corridor), GroupEnd(corridor), at)
    decreases n
  {
    if n > 0 {
      PlacedOne(c.Drawn(), TriedNext(c, tape, corridor), GroupStart(corridor), GroupEnd(corridor), at);
      AttemptsAddOne(c.Drawn(), tape, corridor, at, n - 1);
    }
  }

  /** What an extension adds is attached at its exit. */
  lemma ExtensionAttaches(c: Builder, tape: nat -> nat, p: Piece, e: Exit)
    requires c.Proper() && p.rot < 4 && Straight(e)
    ensures AddedAt(c.list, Extension(c, tape, p, e).list, p, e)
  {
    var at := PlaceOf(p, e);
    if GroupOpen(c, e.corridor, at) {
      AttemptsAddOne(c, tape, e.corridor, at, 5);
    }
    PlacedOne(ByGroup(c, tape, e.corridor, at), [FORTRESS_END], FORTRESS_END, FORTRESS_END + 1, at);
  }

  lemma {:induction false} ExtensionsAttach(c: Builder, tape: nat -> nat, p: Piece, exits: seq<Exit>)
    requires c.Proper() && p.rot < 4 && AllStraight(exits)
    ensures GrewAt(c.list, Extensions(c, tape, p, exits).list, p, exits)
    decreases |exits|
  {
    if exits != [] {
      var last := |exits| - 1;
      var c1 := Extensions(c, tape, p, exits[..last]);
      ExtensionsAttach(c, tape, p, exits[..last]);
      ExtensionAttaches(c1, tape, p, exits[last]);
      GrewMore(c.list, c1.list, Extensions(c, tape, p, exits).list, p, exits[..last], exits[last]);
      assert exits == exits[..last] + [exits[last]];
    }
  }

  /** Whether each side of a T crossing continues with corridors, by its two draws. */
  ghost function SecondSide(c: Builder, tape: nat -> nat, p: Piece): bool
    requires c.Proper() && p.rot < 4
  {
    WithCorridors(Extension(c.Drawn(), tape, p, SideExit(p, -1, WithCorridors(c, tape))), tape)
  }

  /** A continued piece has new pieces only at its exits, in their order. */
  lemma ContinuedAttaches(c: Builder, tape: nat -> nat, p: Piece)
    requires c.Proper() && p.rot < 4
    ensures var exits := if p.typ == CORRIDOR_T_CROSSING
                         then Exits(p, WithCorridors(c, tape), SecondSide(c, tape, p)) else Exits(p, true, true);
      GrewAt(c.list, Continued(c, tape, p).list, p, exits)
  {
    if p.typ == CORRIDOR_T_CROSSING {
      var a := SideExit(p, -1, WithCorridors(c, tape));
      var c1 := Extension(c.Drawn(), tape, p, a);
      var b := SideExit(p, 1, WithCorridors(c1, tape));
      ExtensionAttaches(c.Drawn(), tape, p, a);
      ExtensionAttaches(c1.Drawn(), tape, p, b);
      GrewTwice(c.list, c1.list, Continued(c, tape, p).list, p,
                Exits(p, WithCorridors(c, tape), SecondSide(c, tape, p)));
    } else {
      ExtensionsAttach(c, tape, p, Exits(p, true, true));
    }
  }

  class PieceEnv {
    // The pieces accepted so far, with their `next` links beside them (-1 is null).
    var list: seq<Piece>
    var next: seq<int>
    var ntyp: seq<nat>
    var typlast: nat
    // Random draws: any stream of numbers; `rng` is the position in it.
    const tape: nat -> nat
    var rng: nat

    ghost var queue: seq<nat>
    ghost var extended: set<nat>

    ghost predicate Valid()
      reads this
    {
      && Apart(list) && AllShaped(list) && Counted(list, ntyp)
      && |next| == |list| && Linked(next, 0, queue) && Sorted(|list|, queue, extended)
    }

    method NextInt(n: nat) returns (r: nat)
      requires n > 0
      modifies `rng
      ensures r < n && r == tape(old(rng)) % n && rng == old(rng) + 1
    {
      r := tape(rng) % n;
      rng := rng + 1;
    }

    /** The start piece of `getFortressPieces`. */
    constructor (tape: nat -> nat, chunkX: int, chunkZ: int)
      ensures Valid() && |list| == 1 && queue == [] && extended == {0}
      ensures list[0].typ == FORTRESS_START && list[0].depth == 0 && list[0].rot == tape(0) % 4
      ensures list[0].pos == Pos3(chunkX * 16 + 2, 64, chunkZ * 16 + 2)
    {
      this.tape := tape;
      var pos := Pos3(chunkX * 16 + 2, 64, chunkZ * 16 + 2);
      var size := InfoOf(FORTRESS_START).size;
      var bb1 := Pos3(pos.x + size.x, pos.y + size.y, pos.z + size.z);
      list := [Piece(pos, pos, bb1, tape(0) % 4, 0, FORTRESS_START)];
      rng := 1;
      next := [-1];
      ntyp := [1, 0, 0, 0, 0, 0, 0, 0, 0, 0, 0, 0, 0, 0, 0];
      typlast := FORTRESS_START;
      queue, extended := [], {0};
      new;
      StartCounts(list[0]);
    }

    /** The loop of the collision test. */
    method Collides(p: Piece) returns (hit: bool)
      ensures hit <==> exists k :: 0 <= k < |list| && Intersect(p, list[k])
    {
      for i := 0 to |list|
        invariant forall k :: 0 <= k < i ==> !Intersect(p, list[k])
      {
        if Intersect(p, list[i]) { return true; }
      }
      hit := false;
    }

    /** Walks to the end of the queue and links the entry k there. */
    method LinkBehind(k: nat)
      requires Linked(next, 0, queue) && DistinctFrom(0, queue)
      requires k < |next| && next[k] == -1 && k != 0 && k !in queue
      modifies `next, `queue
      ensures Linked(next, 0, queue) && queue == old(queue) + [k] && |next| == old(|next|)
    {
      var at: nat := 0;
      ghost var q := queue;
      while next[at] != -1
        invariant Linked(next, at, q) && LastOf(0, queue) == LastOf(at, q)
        invariant next == old(next)
        decreases |q|
      {
        assert q != [];
        assert LastOf(at, q) == LastOf(q[0], q[1..]);
        at := next[at];
        q := q[1..];
      }
      LinkAppend(next, 0, queue, k);
      next := next[at := k];
      queue := queue + [k];
    }

    /** `addFortressPiece`: rejects a piece that touches an accepted one; otherwise, when
        `pending`, appends it to the list and to the queue. */
    method AddFortressPiece(typ: nat, pos: Pos3, depth: nat, facing: nat, pending: bool) returns (ok: bool)
      requires Valid() && 0 < typ <= FORTRESS_END && facing < 4
      requires depth <= 31 && (typ != FORTRESS_END ==> depth <= 30)
      requires pending ==> Near(list[0], pos.x, pos.z)
      requires InfoOf(typ).max > 0 ==> ntyp[typ] < InfoOf(typ).max
      modifies this
      ensures Valid() && extended == old(extended)
      ensures Grown(old(list), old(queue), list, queue, 1, depth)
      ensures ok <==> forall k :: 0 <= k < |old(list)| ==> !Intersect(MakePiece(typ, pos, depth, facing), old(list)[k])
      ensures list == if ok && pending then old(list) + [MakePiece(typ, pos, depth, facing)] else old(list)
      ensures !(ok && pending) ==> queue == old(queue) && typlast == old(typlast) && ntyp == old(ntyp)
      ensures ok && pending ==> ntyp == old(ntyp)[typ := old(ntyp)[typ] + 1]
      ensures ok && pending ==> typlast == if typ != FORTRESS_END then typ else old(typlast)
      ensures rng == if ok then old(rng) + InfoOf(typ).skip else old(rng)
      ensures ok && pending ==> State() == old(State()).Accept(MakePiece(typ, pos, depth, facing))
    {
      var p := MakePiece(typ, pos, depth, facing);
      var hit := Collides(p);
      if hit { return false; }
      rng := rng + InfoOf(typ).skip;
      if pending {
        AppendPiece(p);
      }
      ok := true;
    }

    method AppendPiece(p: Piece)
      requires Valid() && p.typ <= FORTRESS_END && Shaped(list[0], p)
      requires forall k :: 0 <= k < |list| ==> !Intersect(p, list[k])
      requires InfoOf(p.typ).max > 0 ==> ntyp[p.typ] < InfoOf(p.typ).max
      modifies this
      ensures Valid() && extended == old(extended) && rng == old(rng)
      ensures list == old(list) + [p] && queue == old(queue) + [old(|list|)]
      ensures ntyp == old(ntyp)[p.typ := old(ntyp)[p.typ] + 1]
      ensures typlast == if p.typ != FORTRESS_END then p.typ else old(typlast)
    {
      ApartAppend(list, p);
      ShapedAppend(list, p);
      CountedAppend(list, ntyp, p);
      SortedAppend(|list|, queue, extended);
      var k := |list|;
      LinkedFrame(next, next + [-1], 0, queue);
      list, next := list + [p], next + [-1];
      ntyp := ntyp[p.typ := ntyp[p.typ] + 1];
      if p.typ != FORTRESS_END { typlast := p.typ; }
      LinkBehind(k);
    }

    /** The loop over the candidate types: total weight, and whether a limited type is left. */
    method Candidates(typ0: nat, typ1: nat) returns (valid: int, weight: nat)
      requires typ0 <= typ1 <= FORTRESS_END && |ntyp| == FORTRESS_END + 1
      ensures valid == 0 || valid == 1
      ensures valid == 1 <==> SomeLimited(ntyp, typ0, typ1)
      ensures weight == WeightUpTo(ntyp, typ0, typ1)
    {
      valid, weight := 0, 0;
      for t := typ0 to typ1
        invariant valid == 0 || valid == 1
        invariant valid == 1 <==> SomeLimited(ntyp, typ0, t)
        invariant weight == WeightUpTo(ntyp, typ0, t)
      {
        assert SomeLimited(ntyp, typ0, t + 1) <==> SomeLimited(ntyp, typ0, t) || (InfoOf(t).max > 0 && !Spent(ntyp, t));
        if !Spent(ntyp, t) {
          if InfoOf(t).max > 0 { valid := 1; }
          weight := weight + InfoOf(t).weight;
        }
      }
    }

    function State(): Builder
      reads this
    {
      Builder(list, ntyp, typlast, rng)
    }

    /** One of the five attempts: draws a type by weight and tries it, and, after a
        collision, the types behind it. */
    method Attempt(corridor: bool, weight: nat, at: Place) returns (done: bool)
      requires Valid() && weight == GroupWeight(State(), corridor) > 0 && at.facing < 4 && at.depth <= 30
      requires Near(list[0], at.pos.x, at.pos.z)
      modifies this
      ensures Valid() && extended == old(extended)
      ensures Grown(old(list), old(queue), list, queue, 1, at.depth)
      ensures State() == Placed(old(State()).Drawn(), TriedNext(old(State()), tape, corridor), at)
      ensures done <==> |list| > |old(list)|
      ensures !done ==> queue == old(queue) && State() == old(State()).Drawn()
    {
      ghost var c := State();
      TriedInGroup(ntyp, typlast, GroupStart(corridor), GroupEnd(corridor), tape(rng) % weight);
      var draw := NextInt(weight);
      assert State() == c.Drawn();
      done := TryFrom(corridor, draw, at);
    }

    /** Tries the types of the group for one draw. */
    method TryFrom(corridor: bool, draw: nat, at: Place) returns (done: bool)
      requires Valid() && at.facing < 4 && at.depth <= 30 && Near(list[0], at.pos.x, at.pos.z)
      requires InGroup(ntyp, typlast, GroupStart(corridor), GroupEnd(corridor), draw)
      modifies this
      ensures Valid() && extended == old(extended)
      ensures Grown(old(list), old(queue), list, queue, 1, at.depth)
      ensures State() ==
        Placed(old(State()), old(Tried(ntyp, typlast, GroupStart(corridor), GroupEnd(corridor), draw)), at)
      ensures done <==> |list| > |old(list)|
      ensures !done ==> queue == old(queue) && State() == old(State())
    {
      var t, typ1 := GroupStart(corridor), GroupEnd(corridor);
      ghost var goal := Placed(State(), Tried(ntyp, typlast, t, typ1, draw), at);
      var n: int := draw;
      while t < typ1
        invariant GroupStart(corridor) <= t <= typ1 && Valid() && extended == old(extended)
        invariant State() == old(State()) && queue == old(queue) && InGroup(ntyp, typlast, t, typ1, n)
        invariant Placed(State(), Tried(ntyp, typlast, t, typ1, n), at) == goal
      {
        var over;
        done, over, n := TryType(t, typ1, n, at);
        if done || over { return; }
        t := t + 1;
      }
      done := false;
    }

    /** Type t for the rest n of the draw: it is passed, or tried, or ends the attempt. */
    method TryType(t: nat, typ1: nat, n0: int, at: Place) returns (done: bool, over: bool, n: int)
      requires Valid() && at.facing < 4 && at.depth <= 30 && Near(list[0], at.pos.x, at.pos.z)
      requires 0 < t < typ1 <= FORTRESS_END && InGroup(ntyp, typlast, t, typ1, n0)
      modifies this
      ensures Valid() && extended == old(extended)
      ensures Grown(old(list), old(queue), list, queue, 1, at.depth)
      ensures done || over ==> State() == Placed(old(State()), old(Tried(ntyp, typlast, t, typ1, n0)), at)
      ensures done <==> |list| > |old(list)|
      ensures !done ==> queue == old(queue) && State() == old(State())
      ensures !done && !over ==> InGroup(ntyp, typlast, t + 1, typ1, n)
      ensures !done && !over ==>
        Placed(State(), Tried(ntyp, typlast, t + 1, typ1, n), at)
          == Placed(State(), Tried(ntyp, typlast, t, typ1, n0), at)
    {
      ghost var c, tried := State(), Tried(ntyp, typlast, t, typ1, n0);
      TriedStep(ntyp, typlast, t, typ1, n0);
      done, over, n := false, false, n0;
      if !Spent(ntyp, t) {
        n := n - InfoOf(t).weight;
        if n < 0 {
          if typlast == t && !InfoOf(t).repeatable {
            over := true;
            return;
          }
          PlacedStep(c, tried, at);
          done := AddFortressPiece(t, at.pos, at.depth, at.facing, true);
          if done { return; }
        }
      }
      TriedInGroup(ntyp, typlast, t + 1, typ1, n);
    }

    /** The five attempts. */
    method TryFive(corridor: bool, weight: nat, at: Place) returns (done: bool)
      requires Valid() && weight == GroupWeight(State(), corridor) > 0 && at.facing < 4 && at.depth <= 30
      requires Near(list[0], at.pos.x, at.pos.z)
      modifies this
      ensures Valid() && extended == old(extended)
      ensures Grown(old(list), old(queue), list, queue, 1, at.depth)
      ensures State() == Attempts(old(State()), tape, corridor, at, 5)
      ensures done <==> |list| > |old(list)|
      ensures !done ==> list == old(list) && queue == old(queue)
    {
      var i: nat := 0;
      ghost var c0, q := State(), queue;
      while i < 5
        invariant i <= 5 && Valid() && extended == old(extended) && queue == q && list == c0.list
        invariant GroupWeight(State(), corridor) == weight
        invariant Attempts(State(), tape, corridor, at, 5 - i) == Attempts(c0, tape, corridor, at, 5)
      {
        done := NextAttempt(corridor, weight, at, 5 - i);
        if done { return; }
        i := i + 1;
      }
      done := false;
    }

    /** The next of n attempts that are left. */
    method NextAttempt(corridor: bool, weight: nat, at: Place, ghost n: nat) returns (done: bool)
      requires Valid() && weight == GroupWeight(State(), corridor) > 0 && at.facing < 4 && at.depth <= 30
      requires Near(list[0], at.pos.x, at.pos.z) && n > 0
      modifies this
      ensures Valid() && extended == old(extended)
      ensures Grown(old(list), old(queue), list, queue, 1, at.depth)
      ensures done <==> |list| > |old(list)|
      ensures done ==> State() == Attempts(old(State()), tape, corridor, at, n)
      ensures !done ==> list == old(list) && queue == old(queue) && GroupWeight(State(), corridor) == weight
      ensures !done ==> Attempts(State(), tape, corridor, at, n - 1) == Attempts(old(State()), tape, corridor, at, n)
    {
      AttemptsStep(State(), tape, corridor, at, n);
      done := Attempt(corridor, weight, at);
    }

    /** The end piece that is tried when nothing else was added. */
    method CloseExit(at: Place, pending: bool)
      requires Valid() && at.facing < 4 && at.depth <= 31 && (pending <==> Near(list[0], at.pos.x, at.pos.z))
      modifies this
      ensures Valid() && extended == old(extended) && Grown(old(list), old(queue), list, queue, 1, at.depth)
      ensures State() == Closed(old(State()), at)
    {
      ghost var c := State();
      var ok := AddFortressPiece(FORTRESS_END, at.pos, at.depth, at.facing, pending);
      assert ok <==> Free(PieceAt(FORTRESS_END, at), c.list);
      PlacedStep(c, [FORTRESS_END], at);
    }

    /** A piece of the group, when the start is near and the group is not used up. */
    method ExtendByGroup(corridor: bool, at: Place) returns (done: bool, valid: int)
      requires Valid() && at.facing < 4 && at.depth <= 31
      modifies this
      ensures Valid() && extended == old(extended) && Grown(old(list), old(queue), list, queue, 1, at.depth)
      ensures State() == ByGroup(old(State()), tape, corridor, at)
      ensures done <==> |list| > |old(list)|
      ensures !done ==> list == old(list) && queue == old(queue)
      ensures valid >= 0 <==> Near(old(list)[0], at.pos.x, at.pos.z)
    {
      valid, done := -1, false;
      if Near(list[0], at.pos.x, at.pos.z) {
        var weight;
        valid, weight := Candidates(GroupStart(corridor), GroupEnd(corridor));
        if valid != 0 && weight > 0 && at.depth <= 30 {
          done := TryFive(corridor, weight, at);
        }
      }
    }

    /** `extendFortress`: at most one piece is added, one level deeper than p. */
    method ExtendFortress(p: Piece, e: Exit)
      requires Valid() && p.rot < 4 && p.depth <= 30 && Straight(e)
      modifies this
      ensures Valid() && extended == old(extended)
      ensures Grown(old(list), old(queue), list, queue, 1, p.depth + 1)
      ensures State() == Extension(old(State()), tape, p, e)
    {
      var at := PlaceOf(p, e);
      var done, valid := ExtendByGroup(e.corridor, at);
      if !done { CloseExit(at, valid >= 0); }
    }

    /** After the extensions of p at the exits given so far. */
    ghost predicate Extending(c: Builder, queue0: seq<nat>, p: Piece, exits: seq<Exit>)
      reads this
      requires c.Proper() && p.rot < 4
    {
      && Valid() && AllStraight(exits) && State() == Extensions(c, tape, p, exits)
      && Grown(c.list, queue0, list, queue, |exits|, p.depth + 1)
    }

    /** One more exit of p. */
    method ExtendAt(p: Piece, e: Exit, ghost c: Builder, ghost queue0: seq<nat>, ghost before: seq<Exit>)
      requires c.Proper() && p.rot < 4 && p.depth <= 30 && Straight(e) && Extending(c, queue0, p, before)
      modifies this
      ensures extended == old(extended) && Extending(c, queue0, p, before + [e])
    {
      ghost var list1, queue1 := list, queue;
      assert (before + [e])[..|before|] == before;
      ExtendFortress(p, e);
      GrownTwice(c.list, queue0, list1, queue1, list, queue, |before|, 1, p.depth + 1);
    }

    method ExtendOne(p: Piece, e: Exit)
      requires Valid() && p.rot < 4 && p.depth <= 30 && Straight(e)
      modifies this
      ensures extended == old(extended) && Extending(old(State()), old(queue), p, [e])
    {
      ghost var c := State();
      assert Extensions(c, tape, p, []) == c;
      ExtendAt(p, e, c, queue, []);
      assert [] + [e] == [e];
    }

    /** `extendFortressPiece`: the extensions of a piece at its exits, by type. */
    method ExtendFortressPiece(p: Piece)
      requires Valid() && p.rot < 4 && (p.typ != FORTRESS_END ==> p.depth <= 30)
      modifies this
      ensures Valid() && extended == old(extended)
      ensures State() == Continued(old(State()), tape, p)
      ensures Grown(old(list), old(queue), list, queue, if p.typ == FORTRESS_END then 0 else 3, p.depth + 1)
    {
      ghost var c, queue0 := State(), queue;
      if p.typ == BRIDGE_STRAIGHT {
        ExtendOne(p, Exit(1, 3, 0, false));
      } else if p.typ == BRIDGE_CROSSING || p.typ == FORTRESS_START {
        ExtendThree(p, 8, 3, false);
      } else if p.typ == BRIDGE_FORTIFIED_CROSSING {
        ExtendThree(p, 2, 0, false);
      } else if p.typ == BRIDGE_STAIRS {
        ExtendOne(p, Exit(2, 6, 1, false));
      } else if p.typ == BRIDGE_CORRIDOR_ENTRANCE {
        ExtendOne(p, Exit(5, 3, 0, true));
      } else if p.typ == CORRIDOR_STRAIGHT {
        ExtendOne(p, Exit(1, 0, 0, true));
      } else if p.typ == CORRIDOR_CROSSING {
        ExtendThree(p, 1, 0, true);
      } else if p.typ == CORRIDOR_TURN_RIGHT {
        ExtendOne(p, Exit(1, 0, 1, true));
      } else if p.typ == CORRIDOR_TURN_LEFT {
        ExtendOne(p, Exit(1, 0, -1, true));
      } else if p.typ == CORRIDOR_STAIRS {
        ExtendOne(p, Exit(1, 0, 0, true));
      } else if p.typ == CORRIDOR_T_CROSSING {
        ExtendTCrossing(p);
      } else if p.typ == CORRIDOR_NETHER_WART {
        ExtendOne(p, Exit(5, 3, 0, true));
        ExtendAt(p, Exit(5, 11, 0, true), c, queue0, [Exit(5, 3, 0, true)]);
        assert [Exit(5, 3, 0, true)] + [Exit(5, 11, 0, true)] == [Exit(5, 3, 0, true), Exit(5, 11, 0, true)];
      }
    }

    /** One side of a T crossing, after the draw for it. */
    method ExtendSide(p: Piece, turn: int)
      requires Valid() && p.rot < 4 && p.depth <= 30 && -1 <= turn <= 1
      modifies this
      ensures Valid() && extended == old(extended)
      ensures State() == Extension(old(State()).Drawn(), tape, p, SideExit(p, turn, WithCorridors(old(State()), tape)))
      ensures Grown(old(list), old(queue), list, queue, 1, p.depth + 1)
    {
      var draw := NextInt(8);
      ExtendFortress(p, SideExit(p, turn, draw != 0));
    }

    /** Left and right from a T crossing. */
    method ExtendTCrossing(p: Piece)
      requires Valid() && p.rot < 4 && p.depth <= 30 && p.typ == CORRIDOR_T_CROSSING
      modifies this
      ensures Valid() && extended == old(extended)
      ensures State() == Continued(old(State()), tape, p)
      ensures Grown(old(list), old(queue), list, queue, 2, p.depth + 1)
    {
      ghost var list0, queue0 := list, queue;
      ExtendSide(p, -1);
      ghost var list1, queue1 := list, queue;
      ExtendSide(p, 1);
      GrownTwice(list0, queue0, list1, queue1, list, queue, 1, 1, p.depth + 1);
    }

    /** Forward, left and right from one piece. */
    method ExtendThree(p: Piece, offh: int, offv: int, corridor: bool)
      requires Valid() && p.rot < 4 && p.depth <= 30
      modifies this
      ensures extended == old(extended)
      ensures Extending(old(State()), old(queue), p,
        [Exit(offh, offv, 0, corridor), Exit(offh, offv, -1, corridor), Exit(offh, offv, 1, corridor)])
    {
      ghost var c, queue0 := State(), queue;
      var a, b, d := Exit(offh, offv, 0, corridor), Exit(offh, offv, -1, corridor), Exit(offh, offv, 1, corridor);
      ExtendOne(p, a);
      ExtendAt(p, b, c, queue0, [a]);
      assert [a] + [b] == [a, b];
      ExtendAt(p, d, c, queue0, [a, b]);
      assert [a, b] + [d] == [a, b, d];
    }

    /** Takes a random entry out of the queue; from now on its piece counts as extended. */
    method TakeRandom() returns (k: nat)
      requires Valid() && queue != []
      modifies this
      ensures Valid() && list == old(list) && k in old(queue) && k !in queue && 0 < k < |list|
      ensures k == old(queue)[tape(old(rng)) % old(|queue|)]
      ensures queue == Without(old(queue), tape(old(rng)) % old(|queue|))
      ensures extended == old(extended) + {k} && rng == old(rng) + 1
      ensures Weight(list, queue) + Pow4(Rest(list[k].depth)) == old(Weight(list, queue))
    {
      var len := QueueLength();
      var pick := NextInt(len);
      var p, q := Walk(pick);
      SortedRemove(|list|, queue, extended, pick);
      WeightWithout(list, queue, pick);
      WithoutElements(queue, pick);
      LinkRemove(next, 0, queue, pick, p);
      next := next[p := next[q]][q := -1];
      queue, extended := Without(queue, pick), extended + {q};
      k := q;
    }

    /** The counting walk over the queue. */
    method QueueLength() returns (len: nat)
      requires Linked(next, 0, queue)
      ensures len == |queue|
    {
      var at: nat := 0;
      ghost var q := queue;
      len := 0;
      while next[at] != -1
        invariant Linked(next, at, q) && len + |q| == |queue|
        decreases |q|
      {
        at := next[at];
        q := q[1..];
        len := len + 1;
      }
    }

    /** The walk to the picked entry q and its predecessor p. */
    method Walk(pick: nat) returns (p: nat, q: nat)
      requires Linked(next, 0, queue) && pick < |queue|
      ensures q == queue[pick] && p == (if pick == 0 then 0 else queue[pick - 1])
    {
      p := 0;
      q := next[0];
      ghost var rest := queue;
      var i := pick;
      while i > 0
        invariant 0 <= i <= pick && rest == queue[pick - i..] && Linked(next, p, rest) && q == rest[0]
        invariant p == if i == pick then 0 else queue[pick - i - 1]
      {
        i := i - 1;
        assert Linked(next, q, rest[1..]);
        p := q;
        rest := rest[1..];
        q := next[q];
      }
    }

    /** `getFortressPieces` after the start piece: extends pieces picked at random until the
        queue is empty. It terminates; at the end all accepted pieces are pairwise apart,
        within the limits, near the start and extended. */
    method GetFortressPieces() returns (count: nat)
      requires Valid() && |list| == 1 && queue == [] && extended == {0} && list[0].depth == 0
      modifies this
      ensures Valid() && count == |list| && queue == []
      ensures Apart(list) && Counted(list, ntyp) && AllShaped(list)
      ensures forall k: nat :: k < count ==> k in extended
    {
      ExtendFortressPiece(list[0]);
      while next[0] != -1
        invariant Valid()
        decreases Weight(list, queue)
      {
        ghost var list0, queue0 := list, queue;
        var k := TakeRandom();
        ghost var queue1 := queue;
        assert forall m :: 0 <= m < |queue1| ==> queue1[m] in queue1;
        ExtendFortressPiece(list[k]);
        MeasureDrops(list0, queue1, list, queue, k, if list0[k].typ == FORTRESS_END then 0 else 3);
      }
      count := |list|;
    }
  }

  /** Extending a piece adds less weight than it had. */
  lemma MeasureDrops(list0: seq<Piece>, queue1: seq<nat>, list: seq<Piece>, queue: seq<nat>, k: nat, n: nat)
    requires k < |list0| && list0[k].depth <= 31 && (forall m :: 0 <= m < |queue1| ==> queue1[m] < |list0|)
    requires n <= 3 && (n > 0 ==> list0[k].depth <= 30)
    requires Grown(list0, queue1, list, queue, n, list0[k].depth + 1)
    ensures Weight(list, queue) < Weight(list0, queue1) + Pow4(Rest(list0[k].depth))
  {
    var d := list0[k].depth;
    var b := queue[|queue1|..];
    assert queue == queue1 + b;
    WeightConcat(list, queue1, b);
    WeightFrame(list0, list, queue1);
    NewWeight(list, b, d);
  }

  /** At most three pieces one level deeper weigh less than one piece. */
  lemma NewWeight(list: seq<Piece>, b: seq<nat>, d: nat)
    requires |b| <= 3 && (b != [] ==> d <= 30)
    requires forall m :: 0 <= m < |b| ==> b[m] < |list| && list[b[m]].depth == d + 1
    ensures Weight(list, b) < Pow4(Rest(d))
  {
    PowPositive(Rest(d));
    if b != [] {
      WeightUniform(list, b, d + 1);
      MulMonotone(|b|, 3, Pow4(Rest(d + 1)), Pow4(Rest(d + 1)));
      assert Pow4(Rest(d)) == 4 * Pow4(Rest(d + 1));
    }
  }

  lemma PowPositive(n: nat)
    ensures Pow4(n) > 0
  {
  }

  lemma StartCounts(p: Piece)
    requires p.typ == FORTRESS_START
    ensures Counted([p], [1, 0, 0, 0, 0, 0, 0, 0, 0, 0, 0, 0, 0, 0, 0])
  {
    forall t: nat | t <= FORTRESS_END ensures CountType([p], t) == if t == 0 then 1 else 0 {
      assert [p][..0] == [];
    }
  }
}
