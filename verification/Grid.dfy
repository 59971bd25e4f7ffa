/** Row-major rectangles filled from a per-cell function. */
module Grid {
  import opened Arith

  /** f(x, z), f(x+1, z), ..., f(x+n-1, z). */
  function Row<T>(f: (int, int) -> T, x: int, z: int, n: nat): (s: seq<T>)
    ensures |s| == n
  {
    if n == 0 then [] else Row(f, x, z, n - 1) + [f(x + n - 1, z)]
  }

  /** n rows of width w, one after the other. */
  function Rows<T>(f: (int, int) -> T, x: int, z: int, w: nat, n: nat): (s: seq<T>)
  {
    if n == 0 then [] else Rows(f, x, z, w, n - 1) + Row(f, x, z + n - 1, w)
  }

  lemma {:induction false} RowAt<T>(f: (int, int) -> T, x: int, z: int, n: nat, i: nat)
    requires i < n
    ensures Row(f, x, z, n)[i] == f(x + i, z)
  {
    if i < n - 1 { RowAt(f, x, z, n - 1, i); }
  }

  lemma {:induction false} RowsLength<T>(f: (int, int) -> T, x: int, z: int, w: nat, n: nat)
    ensures |Rows(f, x, z, w, n)| == n * w
  {
    if n > 0 {
      RowsLength(f, x, z, w, n - 1);
      Distribute(n - 1, 1, w);
    }
  }

  /** The entry at column i of row j is the function's value at that cell. */
  lemma {:induction false} RowsAt<T>(f: (int, int) -> T, x: int, z: int, w: nat, n: nat, i: nat, j: nat)
    requires i < w && j < n
    ensures 0 <= j * w && j * w + i < n * w && |Rows(f, x, z, w, n)| == n * w
    ensures Rows(f, x, z, w, n)[j * w + i] == f(x + i, z + j)
  {
    RowsLength(f, x, z, w, n);
    RowsLength(f, x, z, w, n - 1);
    Distribute(n - 1, 1, w);
    MulMonotone(0, j, 0, w);
    if j == n - 1 {
      RowAt(f, x, z + j, w, i);
    } else {
      RowsAt(f, x, z, w, n - 1, i, j);
    }
  }

  /** Row j of n rows fits behind the j rows before it. */
  lemma {:induction false} RowFits<T>(f: (int, int) -> T, x: int, z: int, w: nat, j: nat, n: nat)
    requires j < n
    ensures Rows(f, x, z, w, j + 1) == Rows(f, x, z, w, j) + Row(f, x, z + j, w)
    ensures |Rows(f, x, z, w, j)| + w <= |Rows(f, x, z, w, n)|
    decreases n
  {
    if j + 1 < n { RowFits(f, x, z, w, j, n - 1); }
  }

  /** The first j rows and the first i cells of row j. */
  function Filled<T>(f: (int, int) -> T, x: int, z: int, w: nat, j: nat, i: nat): seq<T> {
    Rows(f, x, z, w, j) + Row(f, x, z + j, i)
  }

  lemma FilledCell<T>(f: (int, int) -> T, x: int, z: int, w: nat, j: nat, i: nat)
    ensures Filled(f, x, z, w, j, i + 1) == Filled(f, x, z, w, j, i) + [f(x + i, z + j)]
  {
    assert Row(f, x, z + j, i + 1) == Row(f, x, z + j, i) + [f(x + i, z + j)];
  }

  lemma FilledRow<T>(f: (int, int) -> T, x: int, z: int, w: nat, j: nat)
    ensures Filled(f, x, z, w, j, 0) == Rows(f, x, z, w, j)
    ensures Filled(f, x, z, w, j, w) == Rows(f, x, z, w, j + 1)
  {
  }
}
