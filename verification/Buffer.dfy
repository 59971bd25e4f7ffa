/** Rectangles inside one shared integer buffer, rewritten in place from the front. */
module Buffer {
  import opened Arith
  import opened Grid

  /** s with the cells from o on replaced by t. */
  function Splice(s: seq<int>, o: nat, t: seq<int>): (r: seq<int>)
    requires o + |t| <= |s|
    ensures |r| == |s|
  {
    s[..o] + t + s[o + |t|..]
  }

  lemma SpliceNothing(s: seq<int>, o: nat)
    requires o <= |s|
    ensures Splice(s, o, []) == s
  {
  }

  /** Writing the cell behind the replaced ones replaces one more. */
  lemma SpliceNext(s: seq<int>, o: nat, t: seq<int>, v: int)
    requires o + |t| < |s|
    ensures Splice(s, o, t)[o + |t| := v] == Splice(s, o, t + [v])
  {
  }

  lemma SpliceMany(s: seq<int>, o: nat, t: seq<int>, u: seq<int>)
    requires o + |t| + |u| <= |s|
    ensures Splice(Splice(s, o, t), o + |t|, u) == Splice(s, o, t + u)
  {
  }

  /** Cells behind the replaced ones are still those of s. */
  lemma SpliceKeeps(s: seq<int>, o: nat, t: seq<int>, k: nat)
    requires o + |t| <= k < |s|
    ensures Splice(s, o, t)[k] == s[k]
  {
  }

  lemma SpliceEnds(s: seq<int>, o: nat, t: seq<int>)
    requires o + |t| <= |s|
    ensures Splice(s, o, t)[..o] == s[..o]
    ensures Splice(s, o, t)[o..o + |t|] == t
    ensures Splice(s, o, t)[o + |t|..] == s[o + |t|..]
  {
  }

  /** The rectangle (x, z, w, h) of f lies at offset o of s, row by row. */
  ghost predicate Holds(s: seq<int>, o: nat, f: (int, int) -> int, x: int, z: int, w: nat, h: nat) {
    o + |Rows(f, x, z, w, h)| <= |s| && s[o..o + |Rows(f, x, z, w, h)|] == Rows(f, x, z, w, h)
  }

  /** The cell in column i and row j of a rectangle in a buffer. */
  lemma HoldsAt(s: seq<int>, o: nat, f: (int, int) -> int, x: int, z: int, w: nat, h: nat, i: nat, j: nat)
    requires Holds(s, o, f, x, z, w, h) && i < w && j < h
    ensures 0 <= j * w && o + j * w + i < o + h * w <= |s|
    ensures s[o + j * w + i] == f(x + i, z + j)
  {
    RowsAt(f, x, z, w, h, i, j);
    assert s[o..o + |Rows(f, x, z, w, h)|][j * w + i] == s[o + j * w + i];
  }

  /** A rectangle depends only on its own cells. */
  lemma HoldsIn(s: seq<int>, s': seq<int>, o: nat, n: nat, f: (int, int) -> int, x: int, z: int, w: nat, h: nat)
    requires Holds(s, o, f, x, z, w, h) && |Rows(f, x, z, w, h)| <= n
    requires o + n <= |s| && |s'| == |s| && s'[o..o + n] == s[o..o + n]
    ensures Holds(s', o, f, x, z, w, h)
  {
    var k := |Rows(f, x, z, w, h)|;
    assert s'[o..o + k] == s'[o..o + n][..k];
    assert s[o..o + k] == s[o..o + n][..k];
  }

  /** b is s with the first j rows and i cells of row j of (x, z, w, _) of f at o. */
  ghost predicate Replaced(b: seq<int>, s: seq<int>, o: nat, f: (int, int) -> int, x: int, z: int, w: nat, j: nat,
                           i: nat)
  {
    o + |Filled(f, x, z, w, j, i)| <= |s| && b == Splice(s, o, Filled(f, x, z, w, j, i))
  }

  lemma FilledLength(f: (int, int) -> int, x: int, z: int, w: nat, j: nat, i: nat)
    ensures 0 <= j * w && |Filled(f, x, z, w, j, i)| == j * w + i
  {
    RowsLength(f, x, z, w, j);
  }

  lemma StartReplacing(s: seq<int>, o: nat, f: (int, int) -> int, x: int, z: int, w: nat)
    requires o <= |s|
    ensures Replaced(s, s, o, f, x, z, w, 0, 0)
  {
    assert Filled(f, x, z, w, 0, 0) == [];
    SpliceNothing(s, o);
  }

  lemma NextRowReplaced(b: seq<int>, s: seq<int>, o: nat, f: (int, int) -> int, x: int, z: int, w: nat, j: nat)
    ensures Replaced(b, s, o, f, x, z, w, j, w) <==> Replaced(b, s, o, f, x, z, w, j + 1, 0)
  {
    FilledRow(f, x, z, w, j);
    FilledRow(f, x, z, w, j + 1);
  }

  /** The memory after the next cell was written. */
  lemma NextReplaced(b: seq<int>, s: seq<int>, o: nat, f: (int, int) -> int, x: int, z: int, w: nat, j: nat, i: nat,
                     k: nat)
    requires Replaced(b, s, o, f, x, z, w, j, i) && k == o + j * w + i && k < |s|
    ensures |b| == |s| && Replaced(b[k := f(x + i, z + j)], s, o, f, x, z, w, j, i + 1)
  {
    FilledLength(f, x, z, w, j, i);
    FilledCell(f, x, z, w, j, i);
    SpliceNext(s, o, Filled(f, x, z, w, j, i), f(x + i, z + j));
  }

  /** Writes the next cell of a rectangle that is being filled in place. */
  method PutNext(a: array<int>, k: nat, v: int, ghost s: seq<int>, o: nat, ghost f: (int, int) -> int, ghost x: int,
                 ghost z: int, w: nat, j: nat, i: nat)
    requires Replaced(a[..], s, o, f, x, z, w, j, i)
    requires k == o + j * w + i && k < a.Length && v == f(x + i, z + j)
    modifies a
    ensures Replaced(a[..], s, o, f, x, z, w, j, i + 1)
  {
    NextReplaced(a[..], s, o, f, x, z, w, j, i, k);
    a[k] := v;
  }

  lemma AllReplaced(b: seq<int>, s: seq<int>, o: nat, f: (int, int) -> int, x: int, z: int, w: nat, h: nat)
    requires Replaced(b, s, o, f, x, z, w, h, 0)
    ensures Holds(b, o, f, x, z, w, h) && b[..o] == s[..o] && |b| == |s|
  {
    FilledRow(f, x, z, w, h);
    SpliceEnds(s, o, Rows(f, x, z, w, h));
  }

  /** Rewriting a rectangle of width w in place of one that is two cells wider and
      higher: cell (i + di, j + dj) of the old one is read before it is overwritten. */
  lemma StillThere(s: seq<int>, b: seq<int>, o: nat, f': (int, int) -> int, f: (int, int) -> int, x: int, z: int,
                   w: nat, h: nat, i: nat, j: nat, di: nat, dj: nat)
    requires Holds(s, o, f, x - 1, z - 1, w + 2, h + 2) && i + di < w + 2 && j + dj < h + 2
    requires Replaced(b, s, o, f', x, z, w, j, i)
    ensures var k := o + (j + dj) * (w + 2) + (i + di);
      && 0 <= o + j * w + i <= k < |b| && b[k] == f(x + i + di - 1, z + j + dj - 1)
  {
    HoldsAt(s, o, f, x - 1, z - 1, w + 2, h + 2, i + di, j + dj);
    MulMonotone(j, j + dj, w, w + 2);
    FilledLength(f', x, z, w, j, i);
    SpliceKeeps(s, o, Filled(f', x, z, w, j, i), o + (j + dj) * (w + 2) + (i + di));
  }

  /** A rectangle behind the one being rewritten is not touched. */
  lemma Beyond(s: seq<int>, b: seq<int>, o: nat, f: (int, int) -> int, x: int, z: int, w: nat, j: nat, i: nat,
      o2: nat, f2: (int, int) -> int, x2: int, z2: int, w2: nat, h2: nat, i2: nat, j2: nat)
    requires Replaced(b, s, o, f, x, z, w, j, i) && o + j * w + i <= o2
    requires Holds(s, o2, f2, x2, z2, w2, h2) && i2 < w2 && j2 < h2
    ensures 0 <= o2 + j2 * w2 + i2 < |b| && b[o2 + j2 * w2 + i2] == f2(x2 + i2, z2 + j2)
  {
    HoldsAt(s, o2, f2, x2, z2, w2, h2, i2, j2);
    FilledLength(f, x, z, w, j, i);
    SpliceKeeps(s, o, Filled(f, x, z, w, j, i), o2 + j2 * w2 + i2);
  }

  /** Cell k of a rectangle, counted row by row. */
  lemma RowsAtIndex(f: (int, int) -> int, x: int, z: int, w: nat, h: nat, k: nat)
    requires k < h * w
    ensures w > 0 && |Rows(f, x, z, w, h)| == h * w && Rows(f, x, z, w, h)[k] == f(x + k % w, z + k / w)
  {
    var i, j := k % w, k / w;
    assert k == w * j + i;
    assert j < h by { QuotientBound(h, w, k); }
    RowsAt(f, x, z, w, h, i, j);
  }

  /** Moves n cells as `memmove` does, through a copy. */
  method Move(a: array<int>, dst: nat, src: nat, n: nat)
    requires dst + n <= a.Length && src + n <= a.Length
    modifies a
    ensures a[..] == Splice(old(a[..]), dst, old(a[src..src + n]))
  {
    var t := a[src..src + n];
    ghost var s := a[..];
    SpliceNothing(s, dst);
    assert t[..0] == [];
    for k := 0 to n
      invariant a[..] == Splice(s, dst, t[..k])
    {
      SpliceNext(s, dst, t[..k], t[k]);
      assert t[..k] + [t[k]] == t[..k + 1];
      a[dst + k] := t[k];
    }
    assert t[..n] == t;
  }

  /** A slice inside the part that two sequences share. */
  lemma SharedTail(s: seq<int>, b: seq<int>, n: nat, p: nat, q: nat)
    requires n <= p <= q <= |s| && |b| == |s| && b[n..] == s[n..]
    ensures b[p..q] == s[p..q]
  {
    forall k | p <= k < q ensures b[k] == s[k] {
      assert b[n..][k - n] == s[n..][k - n];
    }
  }

  lemma SliceOfSlice(s: seq<int>, p: nat, n: nat, d: nat, w: nat)
    requires d + w <= n && p + n <= |s|
    ensures s[p + d..p + d + w] == s[p..p + n][d..d + w]
  {
    var t, u := s[p..p + n], s[p + d..p + d + w];
    forall k: nat | k < w ensures u[k] == t[d..d + w][k] {
      assert t[d + k] == s[p + d + k];
    }
  }

  lemma ShorterPrefix(s: seq<int>, s': seq<int>, o: nat, k: nat)
    requires o <= k <= |s| && |s'| == |s| && s'[..k] == s[..k]
    ensures s'[..o] == s[..o]
  {
    assert s'[..o] == s'[..k][..o];
    assert s[..o] == s[..k][..o];
  }
}
