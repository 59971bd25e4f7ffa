/** The largest all-match rectangle of a grid (finders.c): right-to-left run lengths and
    a stack of open levels that lives in the same array. */
module LargestRectangle {
  import opened Arith

  type Cells = (int, int) -> bool

  datatype Pos = Pos(x: int, z: int)

  // ---------------------------------------------------------------- what is computed

  ghost predicate RowMatches(g: Cells, x0: int, x1: int, z: int) {
    forall x :: x0 <= x <= x1 ==> g(x, z)
  }

  /** A non-empty rectangle of matching cells inside the grid. */
  ghost predicate Rectangle(g: Cells, sx: nat, sz: nat, x0: int, z0: int, x1: int, z1: int) {
    && 0 <= x0 <= x1 < sx && 0 <= z0 <= z1 < sz
    && forall z :: z0 <= z <= z1 ==> RowMatches(g, x0, x1, z)
  }

  /** It cannot be continued downwards, because of a cell inside the grid. */
  ghost predicate Blocked(g: Cells, sx: nat, sz: nat, x0: int, z0: int, x1: int, z1: int) {
    Rectangle(g, sx, sz, x0, z0, x1, z1) && z1 + 1 < sz && !RowMatches(g, x0, x1, z1 + 1)
  }

  function Area(x0: int, z0: int, x1: int, z1: int): int {
    (x1 - x0 + 1) * (z1 - z0 + 1)
  }

  /** A positive area comes with a blocked rectangle p0..p1 of that size. */
  ghost predicate Attained(g: Cells, sx: nat, sz: nat, area: nat, p0: Pos, p1: Pos) {
    area > 0 ==> Blocked(g, sx, sz, p0.x, p0.z, p1.x, p1.z) && Area(p0.x, p0.z, p1.x, p1.z) == area
  }

  /** The area is that of p0..p1 and no blocked rectangle is larger; 0 means none exists. */
  ghost predicate LargestBlocked(g: Cells, sx: nat, sz: nat, area: nat, p0: Pos, p1: Pos) {
    && Attained(g, sx, sz, area, p0, p1)
    && forall x0, z0, x1, z1 :: Blocked(g, sx, sz, x0, z0, x1, z1) ==> Area(x0, z0, x1, z1) <= area
  }

  /** The same over all rectangles: what the function is meant to return. */
  ghost predicate Largest(g: Cells, sx: nat, sz: nat, area: nat, p0: Pos, p1: Pos) {
    && (area > 0 ==> Rectangle(g, sx, sz, p0.x, p0.z, p1.x, p1.z) && Area(p0.x, p0.z, p1.x, p1.z) == area)
    && forall x0, z0, x1, z1 :: Rectangle(g, sx, sz, x0, z0, x1, z1) ==> Area(x0, z0, x1, z1) <= area
  }

  ghost predicate RowClear(g: Cells, sx: nat, z: int) {
    forall x :: 0 <= x < sx ==> !g(x, z)
  }

  // ------------------------------------------------------------- run lengths per row

  /** Number of matching cells in row z from column i to the right. */
  function Run(g: Cells, sx: nat, i: nat, z: int): (n: nat)
    requires i <= sx
    ensures n <= sx - i
    decreases sx - i
  {
    if i < sx && g(i, z) then 1 + Run(g, sx, i + 1, z) else 0
  }

  lemma {:induction false} RunMeaning(g: Cells, sx: nat, i: nat, z: int, v: nat)
    requires i <= sx
    ensures v <= Run(g, sx, i, z) <==> i + v <= sx && RowMatches(g, i, i + v - 1, z)
    decreases sx - i
  {
    if v > 0 && i < sx { RunMeaning(g, sx, i + 1, z, v - 1); }
  }

  /** The run lengths of a column. */
  ghost predicate Runs(g: Cells, sx: nat, sz: nat, i: nat, n: seq<nat>)
    requires i <= sx
  {
    |n| == sz && forall z :: 0 <= z < sz ==> n[z] == Run(g, sx, i, z)
  }

  /** The run lengths of a column as a sequence. */
  function Heights(g: Cells, sx: nat, sz: nat, i: nat): (n: seq<nat>)
    requires i <= sx
    ensures |n| == sz
  {
    seq(sz, z requires 0 <= z < sz => Run(g, sx, i, z))
  }

  // ------------------------------------------------- levels left open by a histogram

  /** Height of the row above row a. */
  function Prev(n: seq<nat>, a: nat): nat
    requires a <= |n|
  {
    if a == 0 then 0 else n[a - 1]
  }

  /** The level that a rise at row a opens is still there before row j: since then no row
      was empty or lower than the row above the rise. */
  predicate Opens(n: seq<nat>, a: nat, j: nat) {
    a < j <= |n| && n[a] > Prev(n, a) && forall r :: a <= r < j ==> n[r] > 0 && n[r] >= Prev(n, a)
  }

  /** How many rows before row m opened a level that is there before row j. */
  function CountOpen(n: seq<nat>, m: nat, j: nat): (k: nat)
    ensures k <= m
  {
    if m == 0 then 0 else CountOpen(n, m - 1, j) + if Opens(n, m - 1, j) then 1 else 0
  }

  /** Levels that the columns from i to the right leave open after their last row. */
  function LeftOpen(g: Cells, sx: nat, sz: nat, i: nat): nat
    requires i <= sx
    decreases sx - i
  {
    if i == sx then 0 else LeftOpen(g, sx, sz, i + 1) + CountOpen(Heights(g, sx, sz, i), sz, sz)
  }

  /** Room for the stack: the array is as long as the longer side of the grid. */
  function Room(sx: nat, sz: nat): nat {
    if sx > sz then sx else sz
  }

  /** Before row j of column i the stack is higher than the array is long. */
  predicate TooHigh(g: Cells, sx: nat, sz: nat, i: nat, j: nat)
    requires i < sx
  {
    LeftOpen(g, sx, sz, i + 1) + CountOpen(Heights(g, sx, sz, i), j, j) > Room(sx, sz)
  }

  /** The stack leaves the array: levels of earlier columns are never removed. */
  ghost predicate Overruns(g: Cells, sx: nat, sz: nat) {
    exists i: nat, j: nat | i < sx && j <= sz :: TooHigh(g, sx, sz, i, j)
  }

  // ------------------------------------------------------- levels of one column (pure)

  /** The open levels of a histogram: each has a start row and a height, over the level
      below it. */
  datatype Stack = Bottom | Level(start: nat, height: nat, below: Stack)

  function Top(s: Stack): nat {
    if s.Bottom? then 0 else s.height
  }

  function Depth(s: Stack): nat {
    if s.Bottom? then 0 else 1 + Depth(s.below)
  }

  /** Rows a .. b-1 are at least v high. */
  ghost predicate Reaches(n: seq<nat>, v: nat, a: nat, b: nat) {
    b <= |n| && forall r :: a <= r < b ==> v <= n[r]
  }

  ghost predicate LowBefore(n: seq<nat>, start: nat, v: nat) {
    start <= |n| && Prev(n, start) == v
  }

  /** Before row j of the histogram n: levels do not fall, each started after a row as
      high as the level below it, and every row since reaches it. */
  ghost predicate Levels(n: seq<nat>, j: nat, s: Stack) {
    s.Level? ==>
      && s.height > 0 && Top(s.below) <= s.height && s.start < j && Depth(s.below) <= s.start
      && LowBefore(n, s.start, Top(s.below)) && Reaches(n, s.height, s.start, j)
      && Levels(n, j, s.below)
  }

  /** Of the rows before `end` those with a level that is there before row j are exactly
      the start rows of s. */
  ghost predicate Exact(n: seq<nat>, j: nat, end: nat, s: Stack)
    decreases s
  {
    match s
    case Bottom => NoneOpens(n, 0, end, j)
    case Level(start, _, below) =>
      start < end && Opens(n, start, j) && NoneOpens(n, start + 1, end, j) && Exact(n, j, start, below)
  }

  ghost predicate NoneOpens(n: seq<nat>, from: nat, end: nat, j: nat) {
    forall a: nat | from <= a < end :: !Opens(n, a, j)
  }

  /** Between rows the current level is the height of the last row. */
  ghost predicate Open(n: seq<nat>, j: nat, s: Stack) {
    j <= |n| && Levels(n, j, s) && Top(s) == Prev(n, j) && Exact(n, j, j, s)
  }

  lemma {:induction false} NoneCounted(n: seq<nat>, from: nat, end: nat, j: nat)
    requires from <= end && NoneOpens(n, from, end, j)
    ensures CountOpen(n, end, j) == CountOpen(n, from, j)
    decreases end
  {
    if from < end { NoneCounted(n, from, end - 1, j); }
  }

  /** So the depth of the stack is a count on the histogram. */
  lemma {:induction false} DepthIsCount(n: seq<nat>, j: nat, end: nat, s: Stack)
    requires Exact(n, j, end, s)
    ensures Depth(s) == CountOpen(n, end, j)
    decreases s
  {
    match s
    case Bottom => NoneCounted(n, 0, end, j);
    case Level(start, _, below) =>
      NoneCounted(n, start + 1, end, j);
      DepthIsCount(n, j, start, below);
  }

  /** A further row keeps exactly the levels that it is not lower than. */
  lemma OpensNext(n: seq<nat>, a: nat, j: nat)
    requires a < j < |n|
    ensures Opens(n, a, j + 1) <==> Opens(n, a, j) && n[j] > 0 && n[j] >= Prev(n, a)
  {
  }

  lemma NoneNext(n: seq<nat>, from: nat, end: nat, j: nat)
    requires NoneOpens(n, from, end, j) && end <= j < |n|
    ensures NoneOpens(n, from, end, j + 1)
  {
    var k := j + 1;
    forall a: nat | from <= a < end ensures !Opens(n, a, k) { OpensNext(n, a, j); }
  }

  lemma {:induction false} ExactKept(n: seq<nat>, j: nat, end: nat, s: Stack)
    requires Levels(n, j, s) && Exact(n, j, end, s) && end <= j < |n|
    requires s.Level? ==> n[j] > 0 && n[j] >= Top(s.below)
    ensures Exact(n, j + 1, end, s)
    decreases s
  {
    NoneNext(n, if s.Level? then s.start + 1 else 0, end, j);
    if s.Level? {
      OpensNext(n, s.start, j);
      ExactKept(n, j, s.start, s.below);
    }
  }

  /** All bars that end before row j because the next row is lower are at most `ret`. */
  ghost predicate Covered(n: seq<nat>, j: nat, ret: nat) {
    forall v: nat, a: nat, b: nat :: a < b < j <= |n| && Reaches(n, v, a, b) && n[b] < v ==> v * (b - a) <= ret
  }

  /** Bars higher than w that reach up to row j are at most `ret` large. */
  ghost predicate Popped(n: seq<nat>, j: nat, w: nat, ret: nat) {
    forall v: nat, a: nat :: a < j <= |n| && v > w && Reaches(n, v, a, j) ==> v * (j - a) <= ret
  }

  lemma LastReached(n: seq<nat>, v: nat, a: nat, b: nat)
    requires a < b && Reaches(n, v, a, b)
    ensures v <= n[b - 1]
  {
  }

  /** A bar higher than the row before `start` cannot begin above `start`. */
  lemma StartsLater(n: seq<nat>, v: nat, a: nat, j: nat, start: nat, w: nat)
    requires start < j && LowBefore(n, start, w) && Reaches(n, v, a, j) && v > w
    ensures a >= start
  {
  }

  lemma TopCoversNothing(n: seq<nat>, j: nat, w: nat, ret: nat)
    requires 0 < j <= |n| && w == n[j - 1]
    ensures Popped(n, j, w, ret)
  {
  }

  /** Popping the top level: its bar is the largest among those above the level below. */
  lemma PopLevel(n: seq<nat>, j: nat, s: Stack, ret: nat, ret': nat)
    requires s.Level? && Levels(n, j, s) && Popped(n, j, s.height, ret)
    requires ret' >= ret && ret' >= s.height * (j - s.start)
    ensures Popped(n, j, Top(s.below), ret')
  {
    forall v: nat, a: nat | a < j <= |n| && v > Top(s.below) && Reaches(n, v, a, j)
      ensures v * (j - a) <= ret'
    {
      if v <= s.height {
        StartsLater(n, v, a, j, s.start, Top(s.below));
        MulMonotone(v, s.height, j - a, j - s.start);
      }
    }
  }

  /** Levels survive a row that reaches the top one. */
  lemma {:induction false} Extend(n: seq<nat>, j: nat, s: Stack)
    requires j < |n| && Levels(n, j, s) && Top(s) <= n[j]
    ensures Levels(n, j + 1, s)
  {
    if s.Level? { Extend(n, j, s.below); }
  }

  /** The number of levels is at most the number of rows. */
  lemma DepthBound(n: seq<nat>, j: nat, s: Stack)
    requires Levels(n, j, s)
    ensures Depth(s) <= j
  {
  }

  lemma NoneClosed(n: seq<nat>, j: nat, ret: nat)
    requires j < |n| && Covered(n, j, ret) && n[j] >= if j == 0 then 0 else n[j - 1]
    ensures Covered(n, j + 1, ret)
  {
    forall v: nat, a: nat, b: nat | a < b < j + 1 && Reaches(n, v, a, b) && n[b] < v
      ensures v * (b - a) <= ret
    {
      LastReached(n, v, a, b);
    }
  }

  /** A row as high as the current level changes nothing. */
  lemma SameLevel(n: seq<nat>, j: nat, s: Stack, ret: nat)
    requires j < |n| && Open(n, j, s) && Covered(n, j, ret) && n[j] == Top(s)
    ensures Open(n, j + 1, s) && Covered(n, j + 1, ret)
  {
    Extend(n, j, s);
    ExactKept(n, j, j, s);
    NoneClosed(n, j, ret);
  }

  /** A higher row opens a level. */
  lemma PushLevel(n: seq<nat>, j: nat, s: Stack, ret: nat)
    requires j < |n| && Open(n, j, s) && Covered(n, j, ret) && n[j] > Top(s)
    ensures Open(n, j + 1, Level(j, n[j], s)) && Covered(n, j + 1, ret)
  {
    Extend(n, j, s);
    DepthBound(n, j, s);
    ExactKept(n, j, j, s);
    assert Opens(n, j, j + 1);
    NoneClosed(n, j, ret);
  }

  /** A row below the old level, after everything above it has been popped. */
  lemma CloseBars(n: seq<nat>, j: nat, w: nat, ret: nat)
    requires j < |n| && w <= n[j] && Covered(n, j, ret) && Popped(n, j, w, ret)
    ensures Covered(n, j + 1, ret)
  {
    forall v: nat, a: nat, b: nat | a < b < j + 1 && Reaches(n, v, a, b) && n[b] < v
      ensures v * (b - a) <= ret
    {
      if b == j { assert v > w; }
    }
  }

  /** None of the levels opened from row `from` on survives a row of height v. */
  ghost predicate NoneKept(n: seq<nat>, from: nat, j: nat, v: nat) {
    forall a: nat | from <= a < j :: Opens(n, a, j) ==> Prev(n, a) > v
  }

  /** The level at which popping down to height v stops. */
  function LastPopped(s: Stack, v: nat): (r: Stack)
    requires s.Level?
    ensures r.Level?
    decreases s
  {
    if s.below.Level? && s.below.height > v then LastPopped(s.below, v) else s
  }

  /** The levels above it are those that the row closes. */
  lemma {:induction false} PoppedExactly(n: seq<nat>, j: nat, v: nat, s: Stack)
    requires s.Level? && Levels(n, j, s) && j <= |n|
    requires Exact(n, j, s.start + 1, s) && NoneKept(n, s.start + 1, j, v)
    ensures var r := LastPopped(s, v); Exact(n, j, r.start + 1, r) && NoneKept(n, r.start + 1, j, v)
    decreases s
  {
    if s.below.Level? && s.below.height > v { PoppedExactly(n, j, v, s.below); }
  }

  /** The last popped level stays open at the height of the row; a row of height 0
      closes everything. */
  lemma Resume(n: seq<nat>, j: nat, popped: Stack)
    requires j < |n| && popped.Level? && Levels(n, j, popped) && Top(popped.below) <= n[j] < popped.height
    requires Exact(n, j, popped.start + 1, popped) && NoneKept(n, popped.start + 1, j, n[j])
    ensures n[j] > 0 ==> Open(n, j + 1, Level(popped.start, n[j], popped.below))
    ensures n[j] == 0 ==> popped.below == Bottom && Open(n, j + 1, Bottom)
  {
    Extend(n, j, popped.below);
    assert popped.height <= n[j - 1];
    var k := j + 1;
    forall a: nat | popped.start < a < k ensures !Opens(n, a, k) {
      if a < j { OpensNext(n, a, j); }
    }
    if n[j] > 0 {
      OpensNext(n, popped.start, j);
      ExactKept(n, j, popped.start, popped.below);
    } else {
      forall a: nat | a < j ensures !Opens(n, a, k) { OpensNext(n, a, j); }
    }
  }

  // ------------------------------------------------------------------ the array version

  /** An array entry holds a run length and, independently, a stack entry: the start row
      of a level and the height below it. */
  datatype Entry = Entry(n: nat, j: nat, w: nat)

  /** The stack s is stored at `base`, bottom first. */
  ghost predicate Stored(meta: seq<Entry>, base: nat, s: Stack) {
    s.Level? ==>
      && base + Depth(s.below) < |meta|
      && meta[base + Depth(s.below)].j == s.start && meta[base + Depth(s.below)].w == Top(s.below)
      && Stored(meta, base, s.below)
  }

  ghost predicate HasRuns(meta: seq<Entry>, n: seq<nat>) {
    |n| <= |meta| && forall r :: 0 <= r < |n| ==> meta[r].n == n[r]
  }

  /** Writing a stack entry behind the stored ones changes neither them nor the runs. */
  lemma {:induction false} StoredFrame(meta: seq<Entry>, base: nat, s: Stack, k: nat, j: nat, w: nat)
    requires Stored(meta, base, s) && base + Depth(s) <= k < |meta|
    ensures Stored(meta[k := meta[k].(j := j, w := w)], base, s)
  {
    if s.Level? { StoredFrame(meta, base, s.below, k, j, w); }
  }

  lemma RunsFrame(meta: seq<Entry>, n: seq<nat>, k: nat, j: nat, w: nat)
    requires HasRuns(meta, n) && k < |meta|
    ensures HasRuns(meta[k := meta[k].(j := j, w := w)], n)
  {
  }

  /** The bars of column i as rectangles: a bar that the next row ends is blocked. */
  lemma BarIsBlocked(g: Cells, sx: nat, sz: nat, i: nat, n: seq<nat>, v: nat, a: nat, b: nat)
    requires i < sx && Runs(g, sx, sz, i, n) && v > 0
    requires a < b < sz && Reaches(n, v, a, b) && n[b] < v
    ensures Blocked(g, sx, sz, i, a, i + v - 1, b - 1)
    ensures Area(i, a, i + v - 1, b - 1) == v * (b - a)
  {
    RunMeaning(g, sx, i, b, v);
    RunMeaning(g, sx, i, a, v);
    assert v <= n[a];
    var x1 := i + v - 1;
    forall z | a <= z <= b - 1 ensures RowMatches(g, i, x1, z) {
      assert v <= n[z];
      RunMeaning(g, sx, i, z, v);
    }
  }

  /** Conversely, every blocked rectangle with left column i is such a bar. */
  lemma BlockedIsBar(g: Cells, sx: nat, sz: nat, i: nat, n: seq<nat>, z0: int, x1: int, z1: int)
    requires i < sx && Runs(g, sx, sz, i, n) && Blocked(g, sx, sz, i, z0, x1, z1)
    ensures Reaches(n, x1 - i + 1, z0, z1 + 1) && n[z1 + 1] < x1 - i + 1
    ensures Area(i, z0, x1, z1) == (x1 - i + 1) * (z1 + 1 - z0)
  {
    var v := x1 - i + 1;
    RunMeaning(g, sx, i, z1 + 1, v);
    forall r | z0 <= r < z1 + 1 ensures v <= n[r] {
      assert RowMatches(g, i, x1, r);
      RunMeaning(g, sx, i, r, v);
    }
  }

  /** All blocked rectangles with a left column from i on are at most `area` large. */
  ghost predicate CoveredFrom(g: Cells, sx: nat, sz: nat, i: nat, area: nat) {
    forall x0, z0, x1, z1 :: x0 >= i && Blocked(g, sx, sz, x0, z0, x1, z1) ==> Area(x0, z0, x1, z1) <= area
  }

  lemma ColumnDone(g: Cells, sx: nat, sz: nat, i: nat, n: seq<nat>, area: nat)
    requires i < sx && Runs(g, sx, sz, i, n) && Covered(n, sz, area) && CoveredFrom(g, sx, sz, i + 1, area)
    ensures CoveredFrom(g, sx, sz, i, area)
  {
    forall x0, z0, x1, z1 | x0 >= i && Blocked(g, sx, sz, x0, z0, x1, z1)
      ensures Area(x0, z0, x1, z1) <= area
    {
      if x0 == i { BlockedIsBar(g, sx, sz, i, n, z0, x1, z1); }
    }
  }

  /** The best rectangle so far. */
  datatype Best = Best(area: nat, p0: Pos, p1: Pos)

  /** The fixed surroundings of a column scan, for the proof only. */
  datatype Column = Column(g: Cells, sx: nat, sz: nat, i: nat, n: seq<nat>)

  ghost predicate InColumn(c: Column) {
    c.i < c.sx && Runs(c.g, c.sx, c.sz, c.i, c.n)
  }

  ghost predicate Found(c: Column, best: Best) {
    Attained(c.g, c.sx, c.sz, best.area, best.p0, best.p1)
  }

  /** The levels from cur down are still to be looked at for row j, whose run is n; s was
      open when the popping began. */
  ghost predicate Popping(meta: seq<Entry>, c: Column, base: nat, j: nat, s: Stack, cur: Stack, m: nat, w: nat,
                          best: Best)
  {
    && InColumn(c) && j < c.sz && cur.Level? && Levels(c.n, j, cur) && Stored(meta, base, cur)
    && s.Level? && LastPopped(cur, c.n[j]) == LastPopped(s, c.n[j])
    && m == base + Depth(cur) && c.n[j] < w == Top(cur)
    && Found(c, best) && Popped(c.n, j, w, best.area)
  }

  /** The bar of the level on top is compared with the best rectangle. */
  method PopBar(meta: array<Entry>, ghost c: Column, i: nat, ghost base: nat, j: nat, m: nat, w: nat, best0: Best,
                ghost s: Stack, ghost cur: Stack)
    returns (e: Entry, best: Best)
    requires c.i == i && Popping(meta[..], c, base, j, s, cur, m + 1, w, best0)
    ensures e.w == Top(cur.below) && best.area >= best0.area
    ensures Found(c, best) && Popped(c.n, j, e.w, best.area)
  {
    e, best := meta[m], best0;
    assert e == meta[..][m];
    var area := Times(w, j - e.j);
    BarIsBlocked(c.g, c.sx, c.sz, i, c.n, w, e.j, j);
    if area > best.area {
      best := Best(area, Pos(i, e.j), Pos(i + w - 1, j - 1));
    }
    PopLevel(c.n, j, cur, best0.area, best.area);
  }

  /** The inner `do ... while (n < w)`: pops levels until one is not above the row. Returns
      the index of the last popped entry, the height now on top, and the last popped level. */
  method PopLevels(meta: array<Entry>, ghost c: Column, i: nat, ghost base: nat, j: nat, n: nat,
                   m0: nat, w0: nat, best0: Best, ghost s: Stack)
    returns (m: nat, w: nat, best: Best, ghost last: Stack)
    requires InColumn(c) && c.i == i && j < c.sz && n == c.n[j] < w0
    requires Open(c.n, j, s) && Stored(meta[..], base, s) && m0 == base + Depth(s) && w0 == Top(s)
    requires Found(c, best0) && Covered(c.n, j, best0.area)
    ensures last.Level? && Levels(c.n, j, last) && Stored(meta[..], base, last)
    ensures s.Level? && last == LastPopped(s, n)
    ensures m == base + Depth(last.below) && w == Top(last.below) <= n < last.height
    ensures best.area >= best0.area && Found(c, best) && Popped(c.n, j, w, best.area)
  {
    m, w, best, last := m0, w0, best0, s;
    TopCoversNothing(c.n, j, w, best.area);
    while true
      invariant Popping(meta[..], c, base, j, s, last, m, w, best) && best.area >= best0.area
      decreases m
    {
      m := m - 1;
      var e;
      e, best := PopBar(meta, c, i, base, j, m, w, best, s, last);
      w := e.w;
      if n >= w { return; }
      last := last.below;
    }
  }

  /** What the column scan keeps before row j, with m and w the C variables. */
  ghost predicate Scanning(meta: seq<Entry>, c: Column, base: nat, j: nat, m: nat, w: nat, best: Best, s: Stack) {
    && InColumn(c) && HasRuns(meta, c.n) && base + Depth(s) <= |meta|
    && Open(c.n, j, s) && Stored(meta, base, s) && m == base + Depth(s) && w == Top(s)
    && Found(c, best) && Covered(c.n, j, best.area)
  }

  /** Stores a stack entry behind the others. */
  method PushEntry(meta: array<Entry>, ghost c: Column, ghost base: nat, j: nat, m: nat, w: nat,
                   ghost best: Best, ghost s: Stack)
    requires Scanning(meta[..], c, base, j, m, w, best, s) && j < c.sz && m < meta.Length && w < c.n[j]
    modifies meta
    ensures Scanning(meta[..], c, base, j + 1, m + 1, c.n[j], best, Level(j, c.n[j], s))
  {
    ghost var was := meta[..];
    meta[m] := meta[m].(j := j, w := w);
    assert meta[..] == was[m := was[m].(j := j, w := w)];
    StoredFrame(was, base, s, m, j, w);
    RunsFrame(was, c.n, m, j, w);
    PushLevel(c.n, j, s, best.area);
  }

  /** A row below the current level: its levels are popped, and the last one goes on at
      the height of the row. */
  method LowerRow(meta: array<Entry>, ghost c: Column, i: nat, ghost base: nat, j: nat, n: nat, m0: nat, w0: nat,
                  best0: Best, ghost s0: Stack)
    returns (m: nat, best: Best, ghost s: Stack)
    requires Scanning(meta[..], c, base, j, m0, w0, best0, s0) && j < c.sz && c.i == i && n == c.n[j] < w0
    ensures Scanning(meta[..], c, base, j + 1, m, n, best, s) && best.area >= best0.area
  {
    var w;
    ghost var last;
    m, w, best, last := PopLevels(meta, c, i, base, j, n, m0, w0, best0, s0);
    CloseBars(c.n, j, w, best.area);
    s := GoOn(meta[..], c, base, j, m, w, best, s0, last);
    if n != 0 { m := m + 1; }
  }

  /** The last popped level goes on at the height of the row, if it has any. */
  lemma GoOn(meta: seq<Entry>, c: Column, base: nat, j: nat, m: nat, w: nat, best: Best, s0: Stack, last: Stack)
    returns (s: Stack)
    requires InColumn(c) && j < c.sz && HasRuns(meta, c.n) && base + Depth(s0) <= |meta| && Open(c.n, j, s0)
    requires last.Level? && Levels(c.n, j, last) && Stored(meta, base, last)
    requires s0.Level? && last == LastPopped(s0, c.n[j])
    requires m == base + Depth(last.below) && w == Top(last.below) <= c.n[j] < last.height
    requires c.n[j] < Top(s0) && Found(c, best) && Covered(c.n, j + 1, best.area)
    ensures Scanning(meta, c, base, j + 1, if c.n[j] != 0 then m + 1 else m, c.n[j], best, s)
  {
    PoppedExactly(c.n, j, c.n[j], s0);
    Resume(c.n, j, last);
    s := if c.n[j] > 0 then Level(last.start, c.n[j], last.below) else Bottom;
  }

  /** The stack fits before row j, and its depth is the count. */
  lemma ScanningFits(meta: seq<Entry>, c: Column, base: nat, j: nat, m: nat, w: nat, best: Best, s: Stack)
    requires Scanning(meta, c, base, j, m, w, best, s)
    ensures m == base + CountOpen(c.n, j, j) <= |meta|
  {
    DepthIsCount(c.n, j, j, s);
  }

  /** A rise that finds the array full is a level too many. */
  lemma NoRoom(meta: seq<Entry>, c: Column, base: nat, j: nat, m: nat, w: nat, best: Best, s: Stack)
    requires Scanning(meta, c, base, j, m, w, best, s) && j < c.sz && w < c.n[j] && m >= |meta|
    ensures base + CountOpen(c.n, j + 1, j + 1) > |meta|
  {
    PushLevel(c.n, j, s, best.area);
    var k, pushed := j + 1, Level(j, c.n[j], s);
    assert Depth(pushed) == Depth(s) + 1;
    DepthIsCount(c.n, k, k, pushed);
  }

  /** One row of the column scan. The original writes past the array when m reaches its
      end; the model stops there instead. */
  method ScanRow(meta: array<Entry>, ghost c: Column, i: nat, ghost base: nat, j: nat, m0: nat, w0: nat,
                 best0: Best, ghost s0: Stack)
    returns (ok: bool, m: nat, w: nat, best: Best, ghost s: Stack)
    requires Scanning(meta[..], c, base, j, m0, w0, best0, s0) && j < c.sz && c.i == i
    modifies meta
    ensures HasRuns(meta[..], c.n)
    ensures !ok ==> base + CountOpen(c.n, j + 1, j + 1) > meta.Length
    ensures ok ==> Scanning(meta[..], c, base, j + 1, m, w, best, s) && best.area >= best0.area
  {
    ok, m, w, best, s := true, m0, w0, best0, s0;
    var n := meta[j].n;
    assert meta[..][j].n == n;
    if n > w {
      if m >= meta.Length {
        NoRoom(meta[..], c, base, j, m, w, best, s);
        return false, m, w, best, s;
      }
      PushEntry(meta, c, base, j, m, w, best, s);
      s := Level(j, n, s);
      m, w := m + 1, n;
    } else if n == w {
      SameLevel(c.n, j, s, best.area);
    } else {
      m, best, s := LowerRow(meta, c, i, base, j, n, m, w, best, s);
      w := n;
    }
  }

  /** The stack fits before each of the rows from 0 to j of the column. */
  ghost predicate Fits(n: seq<nat>, base: nat, j: nat, room: nat) {
    forall k: nat | k <= j :: base + CountOpen(n, k, k) <= room
  }

  lemma FitsNext(n: seq<nat>, base: nat, j: nat, room: nat)
    requires Fits(n, base, j, room) && base + CountOpen(n, j + 1, j + 1) <= room
    ensures Fits(n, base, j + 1, room)
  {
  }

  lemma TooMany(n: seq<nat>, base: nat, k: nat, sz: nat, room: nat)
    requires k <= sz && base + CountOpen(n, k, k) > room
    ensures !Fits(n, base, sz, room)
  {
  }

  lemma StartScanning(meta: seq<Entry>, c: Column, base: nat, best: Best)
    requires InColumn(c) && HasRuns(meta, c.n) && Found(c, best) && base <= |meta|
    ensures Scanning(meta, c, base, 0, base, 0, best, Bottom) && Fits(c.n, base, 0, |meta|)
  {
  }

  /** The second loop over the rows, for one column. */
  method ScanColumn(meta: array<Entry>, ghost c: Column, i: nat, sz: nat, m0: nat, best0: Best)
    returns (ok: bool, m: nat, best: Best)
    requires InColumn(c) && HasRuns(meta[..], c.n) && c.i == i && c.sz == sz && Found(c, best0) && m0 <= meta.Length
    modifies meta
    ensures HasRuns(meta[..], c.n) && (ok <==> Fits(c.n, m0, sz, meta.Length))
    ensures ok ==> Found(c, best) && Covered(c.n, sz, best.area) && best.area >= best0.area
    ensures ok ==> m == m0 + CountOpen(c.n, sz, sz)
  {
    ok, m, best := true, m0, best0;
    ghost var s := Bottom;
    var w := 0;
    var j := 0;
    StartScanning(meta[..], c, m0, best);
    while j < sz
      invariant 0 <= j <= sz && best.area >= best0.area && Fits(c.n, m0, j, meta.Length)
      invariant Scanning(meta[..], c, m0, j, m, w, best, s)
    {
      ok, m, w, best, s := ScanRow(meta, c, i, m0, j, m, w, best, s);
      if !ok {
        TooMany(c.n, m0, j + 1, sz, meta.Length);
        return;
      }
      ScanningFits(meta[..], c, m0, j + 1, m, w, best, s);
      FitsNext(c.n, m0, j, meta.Length);
      j := j + 1;
    }
    ScanningFits(meta[..], c, m0, sz, m, w, best, s);
  }

  // --------------------------------------------------------------------- the function

  function MatchAt(match_: int, ids: seq<int>, sx: nat): Cells {
    (x, z) => var k := z * sx + x; 0 <= k < |ids| && ids[k] == match_
  }

  /** Overrun means that the original leaves its array; otherwise the rectangle found. */
  datatype Outcome = Overrun | Rect(best: Best)

  /** The first loop over the rows: run lengths of column i from those of column i + 1. */
  method UpdateRuns(meta: array<Entry>, g: Cells, sx: nat, sz: nat, i: nat, ghost next: seq<nat>)
    returns (ghost n: seq<nat>)
    requires i < sx && Runs(g, sx, sz, i + 1, next) && HasRuns(meta[..], next)
    modifies meta
    ensures n == Heights(g, sx, sz, i) && Runs(g, sx, sz, i, n) && HasRuns(meta[..], n)
  {
    n := Heights(g, sx, sz, i);
    for j := 0 to sz
      invariant forall r :: 0 <= r < j ==> meta[r].n == n[r]
      invariant forall r :: j <= r < sz ==> meta[r].n == next[r]
    {
      if g(i, j) {
        meta[j] := meta[j].(n := meta[j].n + 1);
      } else {
        meta[j] := meta[j].(n := 0);
      }
    }
  }

  /** What the function returns for a grid: nothing if its stack leaves the array, else the
      largest rectangle among those that some cell below them, inside the grid, keeps
      from growing. */
  ghost predicate Returns(g: Cells, sx: nat, sz: nat, r: Outcome) {
    match r
    case Overrun => Overruns(g, sx, sz)
    case Rect(best) => !Overruns(g, sx, sz) && LargestBlocked(g, sx, sz, best.area, best.p0, best.p1)
  }

  /** The stack fits throughout the columns from i on. */
  ghost predicate FitsFrom(g: Cells, sx: nat, sz: nat, i: nat) {
    forall k: nat, j: nat | i <= k < sx && j <= sz :: !TooHigh(g, sx, sz, k, j)
  }

  /** `getLargestRec`. */
  method GetLargestRec(match_: int, ids: seq<int>, sx: nat, sz: nat) returns (r: Outcome)
    requires |ids| >= sz * sx
    ensures Returns(MatchAt(match_, ids, sx), sx, sz, r)
  {
    var g := MatchAt(match_, ids, sx);
    var meta := new Entry[Room(sx, sz)](_ => Entry(0, 0, 0));
    var best, m, i := Best(0, Pos(0, 0), Pos(0, 0)), 0, sx;
    ghost var n: seq<nat> := seq(sz, _ => 0);
    while i > 0
      invariant 0 <= i <= sx && Runs(g, sx, sz, i, n) && HasRuns(meta[..], n)
      invariant Attained(g, sx, sz, best.area, best.p0, best.p1) && CoveredFrom(g, sx, sz, i, best.area)
      invariant m == LeftOpen(g, sx, sz, i) <= meta.Length && FitsFrom(g, sx, sz, i)
    {
      i := i - 1;
      n := UpdateRuns(meta, g, sx, sz, i, n);
      var ok;
      ghost var before := best.area;
      ok, m, best := ScanColumn(meta, Column(g, sx, sz, i, n), i, sz, m, best);
      ColumnFits(g, sx, sz, i);
      if !ok { return Overrun; }
      CoverMore(g, sx, sz, i + 1, before, best.area);
      ColumnDone(g, sx, sz, i, n, best.area);
    }
    r := Rect(best);
  }

  /** A column fits exactly if the stack is not too high before any of its rows. */
  lemma ColumnFits(g: Cells, sx: nat, sz: nat, i: nat)
    requires i < sx
    ensures Fits(Heights(g, sx, sz, i), LeftOpen(g, sx, sz, i + 1), sz, Room(sx, sz))
      <==> forall j: nat | j <= sz :: !TooHigh(g, sx, sz, i, j)
    ensures FitsFrom(g, sx, sz, i + 1) && (forall j: nat | j <= sz :: !TooHigh(g, sx, sz, i, j)) ==>
      FitsFrom(g, sx, sz, i)
    ensures !(forall j: nat | j <= sz :: !TooHigh(g, sx, sz, i, j)) ==> Overruns(g, sx, sz)
  {
    if forall j: nat | j <= sz :: !TooHigh(g, sx, sz, i, j) {
      forall k: nat | k <= sz
        ensures LeftOpen(g, sx, sz, i + 1) + CountOpen(Heights(g, sx, sz, i), k, k) <= Room(sx, sz)
      {
        assert !TooHigh(g, sx, sz, i, k);
      }
    }
  }

  lemma CoverMore(g: Cells, sx: nat, sz: nat, i: nat, area: nat, area': nat)
    requires CoveredFrom(g, sx, sz, i, area) && area <= area'
    ensures CoveredFrom(g, sx, sz, i, area')
  {
  }

  // ------------------------------------------------------- when it is what was meant

  lemma CornerMatches(g: Cells, sx: nat, sz: nat, x0: int, z0: int, x1: int, z1: int)
    requires Rectangle(g, sx, sz, x0, z0, x1, z1)
    ensures g(x0, z1)
  {
    assert RowMatches(g, x0, x1, z1);
  }

  /** Every rectangle lies in a blocked one when the last row is clear. */
  lemma {:induction false} BlockedExtension(g: Cells, sx: nat, sz: nat, x0: int, z0: int, x1: int, z1: int)
    returns (end: int)
    requires Rectangle(g, sx, sz, x0, z0, x1, z1) && RowClear(g, sx, sz - 1)
    ensures end >= z1 && Blocked(g, sx, sz, x0, z0, x1, end)
    decreases sz - z1
  {
    CornerMatches(g, sx, sz, x0, z0, x1, z1);
    assert z1 != sz - 1;
    if RowMatches(g, x0, x1, z1 + 1) {
      end := BlockedExtension(g, sx, sz, x0, z0, x1, z1 + 1);
    } else {
      end := z1;
    }
  }

  /** With a clear last row, the largest blocked rectangle is a largest rectangle. */
  lemma ClearLastRow(g: Cells, sx: nat, sz: nat, area: nat, p0: Pos, p1: Pos)
    requires RowClear(g, sx, sz - 1) && LargestBlocked(g, sx, sz, area, p0, p1)
    ensures Largest(g, sx, sz, area, p0, p1)
  {
    forall x0, z0, x1, z1 | Rectangle(g, sx, sz, x0, z0, x1, z1)
      ensures Area(x0, z0, x1, z1) <= area
    {
      var end := BlockedExtension(g, sx, sz, x0, z0, x1, z1);
      MulMonotone(x1 - x0 + 1, x1 - x0 + 1, z1 - z0 + 1, end - z0 + 1);
    }
  }

  /** The grid whose only matches are those of the last row of g. */
  function OnlyLastRow(g: Cells, sz: nat): Cells {
    (x, z) => z == sz - 1 && g(x, z)
  }

  ghost predicate SameRow(g: Cells, h: Cells, sx: nat, z: int) {
    forall x :: 0 <= x < sx ==> g(x, z) == h(x, z)
  }

  /** The result is a largest rectangle of the grid. */
  ghost predicate Correct(g: Cells, sx: nat, sz: nat, r: Outcome) {
    r.Rect? && Largest(g, sx, sz, r.best.area, r.best.p0, r.best.p1)
  }

  /** An empty last row leaves nothing open. */
  lemma {:induction false} NothingLeft(g: Cells, sx: nat, sz: nat, i: nat)
    requires i <= sx && RowClear(g, sx, sz - 1)
    ensures LeftOpen(g, sx, sz, i) == 0
    decreases sx - i
  {
    if i < sx {
      NothingLeft(g, sx, sz, i + 1);
      var n := Heights(g, sx, sz, i);
      if sz > 0 {
        assert n[sz - 1] == 0;
        assert NoneOpens(n, 0, sz, sz);
        NoneCounted(n, 0, sz, sz);
      }
    }
  }

  /** So with a clear last row the stack stays in its array. */
  lemma ClearRowFits(g: Cells, sx: nat, sz: nat)
    requires RowClear(g, sx, sz - 1)
    ensures !Overruns(g, sx, sz)
  {
    forall i: nat, j: nat | i < sx && j <= sz ensures !TooHigh(g, sx, sz, i, j) {
      NothingLeft(g, sx, sz, i + 1);
    }
  }

  /** What can be said from the last row alone: the function is right for every grid with
      that last row exactly when the row holds no match. */
  lemma RightForEveryGrid(last: Cells, sx: nat, sz: nat)
    requires sz > 0
    ensures RowClear(last, sx, sz - 1)
       <==> forall g: Cells, r | SameRow(g, last, sx, sz - 1) && Returns(g, sx, sz, r) :: Correct(g, sx, sz, r)
  {
    if RowClear(last, sx, sz - 1) {
      forall g: Cells, r | SameRow(g, last, sx, sz - 1) && Returns(g, sx, sz, r)
        ensures Correct(g, sx, sz, r)
      {
        ClearRowFits(g, sx, sz);
        ClearLastRow(g, sx, sz, r.best.area, r.best.p0, r.best.p1);
      }
    } else {
      var g := OnlyLastRow(last, sz);
      var x :| 0 <= x < sx && last(x, sz - 1);
      MissedInLastRow(g, sx, sz, x);
      assert SameRow(g, last, sx, sz - 1);
      assert !Correct(g, sx, sz, Rect(Best(0, Pos(0, 0), Pos(0, 0))));
    }
  }

  /** Only the last row of the grid holds matches. */
  ghost predicate LastRowOnly(g: Cells, sx: nat, sz: nat) {
    forall a, b :: 0 <= a < sx && 0 <= b < sz - 1 ==> !g(a, b)
  }

  /** A column of such a grid opens at most one level, with its last row. */
  lemma OneLevel(g: Cells, sx: nat, sz: nat, i: nat, j: nat)
    requires i < sx && j <= sz && LastRowOnly(g, sx, sz)
    ensures CountOpen(Heights(g, sx, sz, i), j, j) <= 1
  {
    var n := Heights(g, sx, sz, i);
    if j > 0 {
      forall a: nat | a < j - 1 ensures !Opens(n, a, j) { assert n[a] == 0; }
      NoneCounted(n, 0, j - 1, j);
    }
  }

  lemma {:induction false} FewLevels(g: Cells, sx: nat, sz: nat, i: nat)
    requires i <= sx && LastRowOnly(g, sx, sz)
    ensures LeftOpen(g, sx, sz, i) <= sx - i
    decreases sx - i
  {
    if i < sx {
      FewLevels(g, sx, sz, i + 1);
      OneLevel(g, sx, sz, i, sz);
    }
  }

  /** Matches in the last row under nothing else are missed altogether: the function
      returns 0 for such a grid, and no other result. */
  lemma MissedInLastRow(g: Cells, sx: nat, sz: nat, x: int)
    requires sz > 0 && 0 <= x < sx && g(x, sz - 1) && LastRowOnly(g, sx, sz)
    ensures forall r | Returns(g, sx, sz, r) :: r.Rect? && r.best.area == 0 && !Correct(g, sx, sz, r)
    ensures Returns(g, sx, sz, Rect(Best(0, Pos(0, 0), Pos(0, 0))))
  {
    assert Rectangle(g, sx, sz, x, sz - 1, x, sz - 1);
    assert Area(x, sz - 1, x, sz - 1) == 1;
    forall x0, z0, x1, z1 | Rectangle(g, sx, sz, x0, z0, x1, z1) ensures !(z1 + 1 < sz) {
      CornerMatches(g, sx, sz, x0, z0, x1, z1);
    }
    forall i: nat, j: nat | i < sx && j <= sz ensures !TooHigh(g, sx, sz, i, j) {
      FewLevels(g, sx, sz, i + 1);
      OneLevel(g, sx, sz, i, j);
    }
  }

  /** A grid of two by two cells with one cell free, the upper right one. */
  function Corner(): Cells {
    (x, z) => x == 0 || z == 1
  }

  /** For this grid the third level is written behind an array of two entries. */
  lemma CornerOverruns()
    ensures Overruns(Corner(), 2, 2) && Returns(Corner(), 2, 2, Overrun)
  {
    var g := Corner();
    assert Run(g, 2, 1, 0) == 0 && Run(g, 2, 1, 1) == 1 && Run(g, 2, 0, 0) == 1 && Run(g, 2, 0, 1) == 2;
    var n1, n0 := Heights(g, 2, 2, 1), Heights(g, 2, 2, 0);
    assert n1 == [0, 1] && n0 == [1, 2];
    assert CountOpen(n1, 2, 2) == 1 by { assert Opens(n1, 1, 2); }
    assert CountOpen(n0, 2, 2) == 2 by { assert Opens(n0, 0, 2) && Opens(n0, 1, 2); }
    assert LeftOpen(g, 2, 2, 1) == 1;
    assert TooHigh(g, 2, 2, 0, 2);
  }
}
