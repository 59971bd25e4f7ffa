/** The search through all 48-bit seeds (quadbase.c): the range is split among threads,
    each walks the seeds with wanted low bits, and the blocks they fill are merged. */
module SeedSearch {
  import opened Arith
  import opened Options
  import QuadScan

  /** The numbers among the n from a on that satisfy f, in ascending order. */
  function Passing(f: nat -> bool, a: nat, n: nat): seq<nat>
    decreases n, f
  {
    if n == 0 then [] else Passing(f, a, n - 1) + if f(a + n - 1) then [a + n - 1] else []
  }

  lemma {:induction false} InPassing(f: nat -> bool, a: nat, n: nat, s: nat)
    ensures s in Passing(f, a, n) <==> a <= s < a + n && f(s)
  {
    if n > 0 { InPassing(f, a, n - 1, s); }
  }

  ghost predicate Ascending(s: seq<nat>) {
    forall i, j :: 0 <= i < j < |s| ==> s[i] < s[j]
  }

  /** The list is strictly ascending: no seed is reported twice. */
  lemma {:induction false} PassingAscends(f: nat -> bool, a: nat, n: nat)
    ensures Ascending(Passing(f, a, n))
  {
    if n > 0 {
      PassingAscends(f, a, n - 1);
      var before := Passing(f, a, n - 1);
      forall i | 0 <= i < |before| ensures before[i] < a + n - 1 {
        InPassing(f, a, n - 1, before[i]);
      }
    }
  }

  lemma {:induction false} PassingJoin(f: nat -> bool, a: nat, n: nat, k: nat)
    ensures Passing(f, a, n) + Passing(f, a + n, k) == Passing(f, a, n + k)
    decreases k
  {
    if k > 0 {
      PassingJoin(f, a, n, k - 1);
      assert n + k - 1 == n + (k - 1);
    }
  }

  lemma {:induction false} PassingGap(f: nat -> bool, a: nat, n: nat, n': nat)
    requires n <= n' && forall k | a + n <= k < a + n' :: !f(k)
    ensures Passing(f, a, n') == Passing(f, a, n)
    decreases n'
  {
    if n < n' { PassingGap(f, a, n, n' - 1); }
  }

  // ---------------------------------------------------------------------- output blocks

  const BLOCK := 100

  /** A chain of blocks of 100 seeds: all but the last are full, the last is not. */
  ghost predicate Chain(blocks: seq<seq<nat>>) {
    && |blocks| > 0 && |blocks[|blocks| - 1]| < BLOCK
    && forall i | 0 <= i < |blocks| - 1 :: |blocks[i]| == BLOCK
  }

  function Flat(blocks: seq<seq<nat>>): seq<nat> {
    if blocks == [] then [] else Flat(blocks[..|blocks| - 1]) + blocks[|blocks| - 1]
  }

  /** Stores a seed in the last block, and opens a new block when that is full. */
  method Store(blocks: seq<seq<nat>>, seed: nat) returns (r: seq<seq<nat>>)
    requires Chain(blocks)
    ensures Chain(r) && Flat(r) == Flat(blocks) + [seed]
  {
    var last := |blocks| - 1;
    r := blocks[..last] + [blocks[last] + [seed]];
    assert r[..last] == blocks[..last];
    if |r[last]| >= BLOCK {
      ghost var full := r;
      r := r + [[]];
      assert r[..|r| - 1] == full;
    }
  }

  // ------------------------------------------------------------------ one thread's walk

  /** Sorted low parts below m. The whole range is searched when there is no list. */
  datatype LowBits = Any | Given(values: seq<nat>, m: nat)

  ghost predicate ValidLow(l: LowBits) {
    l.Given? ==> |l.values| > 0 && 0 < l.m <= TWO48 && Ascending(l.values) && l.values[|l.values| - 1] < l.m
  }

  /** The values that the walk uses of a list that ends at its first zero: those before
      the zero, or the zero itself when the list is empty. */
  function Used(list: seq<nat>): (values: seq<nat>)
    requires 0 in list
    ensures |values| > 0 && values <= list
    ensures 0 in values <==> list[0] == 0
  {
    if QuadScan.Given(list) == 0 then list[..1] else list[..QuadScan.Given(list)]
  }

  /** Counts the listed values up to the zero, and takes those that the walk will use. */
  method ReadList(list: seq<nat>, m: nat) returns (l: LowBits)
    requires 0 in list
    ensures l == Given(Used(list), m)
  {
    var cnt := 0;
    while list[cnt] != 0
      invariant cnt <= QuadScan.Given(list)
      decreases QuadScan.Given(list) - cnt
    {
      cnt := cnt + 1;
    }
    l := Given(if cnt == 0 then list[..1] else list[..cnt], m);
  }

  /** An ascending list of values below m is usable, and so is the empty list. */
  lemma ListIsValid(list: seq<nat>, m: nat)
    requires 0 in list && 0 < m <= TWO48
    requires Ascending(list[..QuadScan.Given(list)]) && forall v | v in list[..QuadScan.Given(list)] :: v < m
    ensures ValidLow(Given(Used(list), m))
  {
    var n := QuadScan.Given(list);
    if n > 0 { assert list[..n][n - 1] in list[..n]; }
  }

  predicate Candidate(l: LowBits, s: nat) {
    l.Any? || (l.m > 0 && s % l.m in l.values)
  }

  function Wanted(l: LowBits, check: nat -> bool): nat -> bool {
    (s: nat) => Candidate(l, s) && check(s)
  }

  /** The first index whose seed is not before the start is searched without an end
      check: it exists exactly when the start's low part is at most the last value. */
  predicate FirstExists(l: LowBits, start: nat) {
    l.Any? || (l.m > 0 && |l.values| > 0 && start % l.m <= l.values[|l.values| - 1])
  }

  datatype Walk = Overrun | Walked(blocks: seq<seq<nat>>)

  /** The seed that follows the one at index i of the step at mid. */
  function NextSeed(l: LowBits, mid: nat, i: nat): nat
    requires l.Given? && i < |l.values|
  {
    if i + 1 < |l.values| then mid + l.values[i + 1] else mid + l.m + l.values[0]
  }

  lemma Sorted(v: seq<nat>, i: nat, j: nat)
    requires Ascending(v) && i < |v| && j < |v|
    ensures i <= j ==> v[i] <= v[j]
    ensures v[i] < v[j] ==> i < j
  {
  }

  /** A number strictly between two consecutive values is not a value. */
  lemma NotAValue(v: seq<nat>, i: nat, low: nat)
    requires Ascending(v) && i < |v| && v[i] < low && (i + 1 < |v| ==> low < v[i + 1])
    ensures low !in v
  {
    forall j | 0 <= j < |v| ensures v[j] != low {
      Sorted(v, j, i);
      if i + 1 <= j { Sorted(v, i + 1, j); }
    }
  }

  lemma BelowValues(v: seq<nat>, i: nat, low: nat)
    requires Ascending(v) && i < |v| && low < v[i] && forall k | 0 <= k < i :: v[k] < low
    ensures low !in v
  {
    forall j | 0 <= j < |v| ensures v[j] != low {
      Sorted(v, i, j);
    }
  }

  /** Between two consecutive values, and between the last value of one step and the
      first of the next, there is no candidate. */
  lemma NoneBetween(l: LowBits, mid: nat, i: nat, k: nat)
    requires ValidLow(l) && l.Given? && mid % l.m == 0 && i < |l.values|
    requires mid + l.values[i] < k < NextSeed(l, mid, i)
    ensures !Candidate(l, k)
  {
    Sorted(l.values, i, |l.values| - 1);
    LowPart(mid, l.m, l.m);
    if k < mid + l.m {
      LowPart(mid, k - mid, l.m);
      NotAValue(l.values, i, k - mid);
    } else {
      LastOfStep(l, mid, i, k);
      LowPart(mid + l.m, k - mid - l.m, l.m);
      BelowValues(l.values, 0, k - mid - l.m);
    }
  }

  lemma LastOfStep(l: LowBits, mid: nat, i: nat, k: nat)
    requires ValidLow(l) && l.Given? && i < |l.values|
    requires mid + l.m <= k < NextSeed(l, mid, i)
    ensures k - mid - l.m < l.values[0] < l.m
  {
    BelowModulus(l);
  }

  lemma BelowModulus(l: LowBits)
    requires ValidLow(l) && l.Given?
    ensures forall j | 0 <= j < |l.values| :: l.values[j] < l.m
  {
    forall j | 0 <= j < |l.values| ensures l.values[j] < l.m {
      Sorted(l.values, j, |l.values| - 1);
    }
  }

  lemma LowPart(mid: nat, low: nat, m: nat)
    requires m > 0 && mid % m == 0
    ensures low < m ==> (mid + low) % m == low
    ensures (mid + m) % m == 0
  {
    var q := mid / m;
    assert mid == q * m;
    ModAddMultiple(low, q, m);
    ModAddMultiple(0, q + 1, m);
    Distribute(q, 1, m);
    if low < m { DivModUnique(low, m, 0, low); }
  }

  /** Seeds of [start, end] that were passed when the walk stands at seed. */
  function Passed(start: nat, end: nat, seed: nat): nat {
    if seed <= start then 0 else if seed <= end then seed - start else if end < start then 0 else end + 1 - start
  }

  ghost predicate Stored(f: nat -> bool, start: nat, end: nat, seed: nat, blocks: seq<seq<nat>>) {
    Chain(blocks) && Flat(blocks) == Passing(f, start, Passed(start, end, seed))
  }

  /** Visits one seed: stores it if it passes the check. */
  method Visit(l: LowBits, check: nat -> bool, start: nat, end: nat, seed: nat, ghost next: nat, blocks: seq<seq<nat>>)
    returns (r: seq<seq<nat>>)
    requires start <= seed <= end && seed < next && Candidate(l, seed)
    requires forall k | seed < k < next :: !Candidate(l, k)
    requires Stored(Wanted(l, check), start, end, seed, blocks)
    ensures Stored(Wanted(l, check), start, end, next, r)
  {
    ghost var f := Wanted(l, check);
    r := blocks;
    if check(seed) { r := Store(blocks, seed); }
    assert Flat(r) == Passing(f, start, seed - start + 1);
    PassingGap(f, start, seed - start + 1, Passed(start, end, next));
  }

  /** The branch of `searchAll48Thread` without a list. */
  method WalkAll(check: nat -> bool, start: nat, end: nat) returns (blocks: seq<seq<nat>>)
    requires start <= end + 1
    ensures Stored(Wanted(Any, check), start, end, end + 1, blocks)
  {
    blocks := [[]];
    var seed := start;
    while seed <= end
      invariant start <= seed <= end + 1
      invariant Stored(Wanted(Any, check), start, end, seed, blocks)
    {
      blocks := Visit(Any, check, start, end, seed, seed + 1, blocks);
      seed := seed + 1;
    }
  }

  /** The unchecked loop for the first index; `None` when it leaves the list. */
  method FirstIndex(l: LowBits, start: nat, mid: nat) returns (r: Option<nat>)
    requires l.Given? && ValidLow(l) && start - start % l.m == mid
    ensures r.Some? <==> FirstExists(l, start)
    ensures r.Some? ==> IsFirst(l, start, mid, r.value)
  {
    var idx := 0;
    while idx < |l.values| && mid + l.values[idx] < start
      invariant idx <= |l.values|
      invariant forall i | 0 <= i < idx :: mid + l.values[i] < start
    {
      idx := idx + 1;
    }
    if idx == |l.values| { return None; }
    Sorted(l.values, idx, |l.values| - 1);
    return Some(idx);
  }

  ghost predicate IsFirst(l: LowBits, start: nat, mid: nat, idx: nat)
    requires l.Given?
  {
    idx < |l.values| && start <= mid + l.values[idx] && forall i | 0 <= i < idx :: mid + l.values[i] < start
  }

  /** The walk stands at index idx of the step at mid. */
  ghost predicate Standing(l: LowBits, mid: nat, idx: nat, seed: nat) {
    l.Given? && ValidLow(l) && mid % l.m == 0 && idx < |l.values| && seed == mid + l.values[idx]
  }

  /** Finding the first index, then stepping through the values and to the next step. */
  method WalkLow(l: LowBits, check: nat -> bool, start: nat, end: nat) returns (r: Walk)
    requires l.Given? && ValidLow(l) && start <= end + 1
    ensures r.Walked? <==> FirstExists(l, start)
    ensures r.Walked? ==> Stored(Wanted(l, check), start, end, end + 1, r.blocks)
  {
    StartOfStep(start, l.m);
    var mid := start - start % l.m;
    var first := FirstIndex(l, start, mid);
    if first.None? { return Overrun; }
    FirstSeed(l, check, start, end, mid, first.value);
    var blocks := WalkOn(l, check, start, end, mid, first.value);
    r := Walked(blocks);
  }

  method WalkOn(l: LowBits, check: nat -> bool, start: nat, end: nat, mid0: nat, idx0: nat)
    returns (blocks: seq<seq<nat>>)
    requires l.Given? && idx0 < |l.values| && Standing(l, mid0, idx0, mid0 + l.values[idx0])
    requires start <= mid0 + l.values[idx0] && start <= end + 1
    requires Stored(Wanted(l, check), start, end, mid0 + l.values[idx0], [[]])
    ensures Stored(Wanted(l, check), start, end, end + 1, blocks)
  {
    var mid: nat, idx: nat := mid0, idx0;
    blocks := [[]];
    var seed := mid + l.values[idx];
    while seed <= end
      invariant start <= seed && Standing(l, mid, idx, seed)
      invariant Stored(Wanted(l, check), start, end, seed, blocks)
      decreases end + 1 - seed
    {
      StepFacts(l, mid, idx);
      ghost var next := NextSeed(l, mid, idx);
      blocks := Visit(l, check, start, end, seed, next, blocks);
      idx := idx + 1;
      if idx >= |l.values| {
        idx := 0;
        mid := mid + l.m;
      }
      seed := mid + l.values[idx];
      assert seed == next;
    }
  }

  lemma StartOfStep(start: nat, m: nat)
    requires m > 0
    ensures start - start % m >= 0 && (start - start % m) % m == 0
  {
    var q := start / m;
    assert start == m * q + start % m;
    ModAddMultiple(0, q, m);
    assert start - start % m == 0 + q * m;
  }

  lemma StepFacts(l: LowBits, mid: nat, idx: nat)
    requires ValidLow(l) && l.Given? && mid % l.m == 0 && idx < |l.values|
    ensures Candidate(l, mid + l.values[idx]) && mid + l.values[idx] < NextSeed(l, mid, idx)
    ensures forall k | mid + l.values[idx] < k < NextSeed(l, mid, idx) :: !Candidate(l, k)
    ensures (mid + l.m) % l.m == 0
  {
    Sorted(l.values, idx, |l.values| - 1);
    LowPart(mid, l.values[idx], l.m);
    forall k | mid + l.values[idx] < k < NextSeed(l, mid, idx) ensures !Candidate(l, k) {
      NoneBetween(l, mid, idx, k);
    }
  }

  /** No candidate lies between the start and the first seed. */
  lemma FirstSeed(l: LowBits, check: nat -> bool, start: nat, end: nat, mid: nat, idx: nat)
    requires ValidLow(l) && l.Given? && mid % l.m == 0 && mid <= start < mid + l.m && idx < |l.values|
    requires start <= mid + l.values[idx]
    requires forall i | 0 <= i < idx :: mid + l.values[i] < start
    ensures Stored(Wanted(l, check), start, end, mid + l.values[idx], [[]])
  {
    var f := Wanted(l, check);
    var first := mid + l.values[idx];
    Sorted(l.values, idx, |l.values| - 1);
    forall k | start <= k < first ensures !f(k) {
      LowPart(mid, k - mid, l.m);
      BelowValues(l.values, idx, k - mid);
      assert !Candidate(l, k);
    }
    PassingGap(f, start, 0, Passed(start, end, first));
  }

  // ------------------------------------------------------------------------- the split

  /** Bounds of thread t: signed 64-bit products, divided by the thread count. */
  function Start(t: nat, threads: nat): nat
    requires threads > 0
  {
    U64(TruncDiv(S64(t * TWO48), threads))
  }

  function End(t: nat, threads: nat): nat
    requires threads > 0
  {
    U64(TruncDiv(S64((t + 1) * TWO48), threads) - 1)
  }

  /** Where the range of thread t should start. */
  function Bound(t: nat, threads: nat): nat
    requires threads > 0
  {
    (t * TWO48) / threads
  }

  ghost predicate SplitsExactly(threads: nat)
    requires threads > 0
  {
    forall t | 0 <= t < threads ::
      Start(t, threads) == Bound(t, threads) && End(t, threads) + 1 == Bound(t + 1, threads)
  }

  lemma BoundsOf(t: nat, threads: nat)
    requires 0 < threads < 32768 && t < threads
    ensures Start(t, threads) == Bound(t, threads) && End(t, threads) + 1 == Bound(t + 1, threads)
    ensures Bound(t, threads) <= Bound(t + 1, threads) <= TWO48
  {
    MulMonotone(t, t + 1, TWO48, TWO48);
    MulMonotone(t + 1, threads, TWO48, TWO48);
    S64Small(t * TWO48);
    S64Small((t + 1) * TWO48);
    QuotientBetween(t * TWO48, (t + 1) * TWO48, threads);
    QuotientBetween((t + 1) * TWO48, threads * TWO48, threads);
    ExactQuotient(threads * TWO48, threads, TWO48);
    QuotientBound(1, threads, (t + 1) * TWO48);
  }

  lemma QuotientBetween(a: nat, b: nat, n: nat)
    requires n > 0 && a <= b
    ensures a / n <= b / n <= b
  {
    QuotientBound(a / n, n, b);
    assert (a / n) * n <= a;
    MulMonotone(b / n, b / n, 1, n);
    assert (b / n) * n <= b;
  }

  lemma LateEnd(threads: nat)
    requires threads >= 32768
    ensures End(32767, threads) > TWO48
  {
    assert S64(32768 * TWO48) == 0 - TWO63;
    QuotientBetween(TWO63, TWO63, threads);
    assert TWO63 == 32768 * TWO48;
    QuotientBound(TWO48 + 1, threads, TWO63);
    MulMonotone(TWO48 + 1, TWO48 + 1, 32768, threads);
  }

  /** The ranges are those intended exactly up to 32767 threads: thread 32767 of more
      threads ends past the last 48-bit seed, because its product overflows. */
  lemma SplitLimit(threads: nat)
    requires threads > 0
    ensures SplitsExactly(threads) <==> threads < 32768
  {
    if threads < 32768 {
      forall t | 0 <= t < threads
        ensures Start(t, threads) == Bound(t, threads) && End(t, threads) + 1 == Bound(t + 1, threads)
      {
        BoundsOf(t, threads);
      }
    } else {
      LateEnd(threads);
      assert Bound(32768, threads) <= TWO48 by {
        MulMonotone(32768, threads, TWO48, TWO48);
        QuotientBetween(32768 * TWO48, threads * TWO48, threads);
        ExactQuotient(threads * TWO48, threads, TWO48);
      }
      assert End(32767, threads) + 1 != Bound(32767 + 1, threads);
    }
  }

  /** Thread counts that divide the number of steps give every thread an aligned start,
      from which the first index is always found. */
  lemma AlignedStarts(l: LowBits, threads: nat, k: nat, t: nat)
    requires 0 < threads && l.Given? && ValidLow(l) && TWO48 == (k * l.m) * threads
    ensures FirstExists(l, Bound(t, threads))
  {
    MulAssoc(t, k * l.m, threads);
    ExactQuotient(t * TWO48, threads, t * (k * l.m));
    MulAssoc(t, k, l.m);
    ModAddMultiple(0, t * k, l.m);
  }

  /** Three threads and the single low value 1 of 20 bits: thread 1 starts at a seed
      whose low part is larger, and runs past the end of the list. */
  lemma ThreeThreadsOverrun(l: LowBits)
    requires l == Given([1], 0x10_0000)
    ensures ValidLow(l) && !FirstExists(l, Start(1, 3))
  {
    BoundsOf(1, 3);
  }

  // ------------------------------------------------------------------------- the merge

  function Joined(chains: seq<seq<seq<nat>>>): seq<nat> {
    if chains == [] then [] else Joined(chains[..|chains| - 1]) + Flat(chains[|chains| - 1])
  }

  lemma FlatNext(blocks: seq<seq<nat>>, i: nat)
    requires i < |blocks|
    ensures Flat(blocks[..i + 1]) == Flat(blocks[..i]) + blocks[i]
  {
    assert blocks[..i + 1][..i] == blocks[..i];
  }

  lemma JoinedNext(chains: seq<seq<seq<nat>>>, i: nat)
    requires i < |chains|
    ensures Joined(chains[..i + 1]) == Joined(chains[..i]) + Flat(chains[i])
  {
    assert chains[..i + 1][..i] == chains[..i];
  }

  lemma {:induction false} FlatGrows(blocks: seq<seq<nat>>, i: nat)
    requires i <= |blocks|
    ensures |Flat(blocks[..i])| <= |Flat(blocks)|
    decreases |blocks| - i
  {
    if i < |blocks| {
      FlatNext(blocks, i);
      FlatGrows(blocks, i + 1);
    } else {
      assert blocks[..i] == blocks;
    }
  }

  lemma {:induction false} JoinedGrows(chains: seq<seq<seq<nat>>>, i: nat)
    requires i <= |chains|
    ensures |Joined(chains[..i])| <= |Joined(chains)|
    decreases |chains| - i
  {
    if i < |chains| {
      JoinedNext(chains, i);
      JoinedGrows(chains, i + 1);
    } else {
      assert chains[..i] == chains;
    }
  }

  /** Adds up the block lengths of one chain. */
  method CountChain(blocks: seq<seq<nat>>) returns (n: nat)
    ensures n == |Flat(blocks)|
  {
    n := 0;
    for b := 0 to |blocks|
      invariant n == |Flat(blocks[..b])|
    {
      FlatNext(blocks, b);
      n := n + |blocks[b]|;
    }
    assert blocks[..|blocks|] == blocks;
  }

  method CopyBlock(buf: array<nat>, i: nat, block: seq<nat>)
    requires i + |block| <= buf.Length
    modifies buf
    ensures buf[..i + |block|] == old(buf[..i]) + block
  {
    for k := 0 to |block|
      invariant buf[..i + k] == old(buf[..i]) + block[..k]
    {
      buf[i + k] := block[k];
    }
  }

  /** The place of the last block in the joined chain. */
  function LastPlace(blocks: seq<seq<nat>>): nat
    requires |blocks| > 0
  {
    |Flat(blocks[..|blocks| - 1])|
  }

  /** Copies one chain to place i on; fails when a block's place is not an `int`. */
  method CopyChain(buf: array<nat>, i: nat, blocks: seq<seq<nat>>) returns (placed: bool)
    requires i + |Flat(blocks)| <= buf.Length && |blocks| > 0
    modifies buf
    ensures placed <==> i + LastPlace(blocks) < TWO31
    ensures placed ==> buf[..i + |Flat(blocks)|] == old(buf[..i]) + Flat(blocks)
  {
    var at: nat := i;
    for b := 0 to |blocks|
      invariant at == i + |Flat(blocks[..b])| && at <= buf.Length
      invariant b > 0 ==> i + |Flat(blocks[..b - 1])| < TWO31
      invariant buf[..at] == old(buf[..i]) + Flat(blocks[..b])
    {
      FlatNext(blocks, b);
      FlatGrows(blocks, b + 1);
      if at >= TWO31 {
        FlatPrefix(blocks, b, |blocks| - 1);
        return false;
      }
      CopyBlock(buf, at, blocks[b]);
      at := at + |blocks[b]|;
    }
    assert blocks[..|blocks|] == blocks;
    placed := true;
  }

  lemma FlatPrefix(blocks: seq<seq<nat>>, a: nat, b: nat)
    requires a <= b <= |blocks|
    ensures |Flat(blocks[..a])| <= |Flat(blocks[..b])|
  {
    assert blocks[..b][..a] == blocks[..a];
    FlatGrows(blocks[..b], a);
  }

  ghost predicate AllChains(chains: seq<seq<seq<nat>>>) {
    forall t | 0 <= t < |chains| :: Chain(chains[t])
  }

  /** The places of the blocks of the first n chains are all `int`s. */
  ghost predicate Placed(chains: seq<seq<seq<nat>>>, n: nat)
    requires AllChains(chains) && n <= |chains|
  {
    n == 0 || |Joined(chains[..n - 1])| + LastPlace(chains[n - 1]) < TWO31
  }

  lemma PlacedBefore(chains: seq<seq<seq<nat>>>, a: nat, b: nat)
    requires AllChains(chains) && a <= b <= |chains| && Placed(chains, b)
    ensures Placed(chains, a)
  {
    if 0 < a < b {
      JoinedNext(chains, a - 1);
      FlatGrows(chains[a - 1], |chains[a - 1]| - 1);
      JoinedPrefix(chains, a, b - 1);
    }
  }

  lemma JoinedPrefix(chains: seq<seq<seq<nat>>>, a: nat, b: nat)
    requires a <= b <= |chains|
    ensures |Joined(chains[..a])| <= |Joined(chains[..b])|
  {
    assert chains[..b][..a] == chains[..a];
    JoinedGrows(chains[..b], a);
  }

  /** Counts all blocks, then copies them one behind the other. The place of a block is an
      `int`: the copy is right exactly when the last block starts below 2^31. */
  method Merge(chains: seq<seq<seq<nat>>>) returns (placed: bool, buf: array<nat>)
    requires AllChains(chains)
    ensures placed <==> Placed(chains, |chains|)
    ensures placed ==> buf[..] == Joined(chains)
  {
    var n := 0;
    for t := 0 to |chains|
      invariant n == |Joined(chains[..t])|
    {
      JoinedNext(chains, t);
      var k := CountChain(chains[t]);
      n := n + k;
    }
    assert chains[..|chains|] == chains;
    buf := new nat[n];
    var at: nat := 0;
    for t := 0 to |chains|
      invariant at == |Joined(chains[..t])| && at <= n == buf.Length && Placed(chains, t)
      invariant buf[..at] == Joined(chains[..t])
    {
      JoinedNext(chains, t);
      JoinedGrows(chains, t + 1);
      placed := CopyChain(buf, at, chains[t]);
      if !placed {
        if Placed(chains, |chains|) { PlacedBefore(chains, t + 1, |chains|); }
        return;
      }
      at := at + |Flat(chains[t])|;
    }
    placed := true;
  }

  // -------------------------------------------------------------------- the whole search

  datatype Range = Range(start: nat, end: nat)

  datatype Prepared = Overflow | Ranges(ranges: seq<Range>)

  /** Prepares the bounds of all threads, before any runs. The signed product of the upper
      bound may overflow, which C leaves undefined. */
  method PrepareRanges(threads: int) returns (r: Prepared)
    ensures r.Overflow? <==> threads >= 32768
    ensures r.Ranges? ==> |r.ranges| == (if threads > 0 then threads else 0)
    ensures r.Ranges? ==> forall t | 0 <= t < |r.ranges| ::
      r.ranges[t] == Range(Bound(t, threads), End(t, threads)) && End(t, threads) + 1 == Bound(t + 1, threads)
  {
    var ranges := [];
    var t := 0;
    while t < threads
      invariant 0 <= t == |ranges| && t < 32768 && (t <= threads || t == 0)
      invariant threads < 32768 ==> forall k | 0 <= k < t ::
        ranges[k] == Range(Bound(k, threads), End(k, threads)) && End(k, threads) + 1 == Bound(k + 1, threads)
      decreases threads - t
    {
      if (t + 1) * TWO48 >= TWO63 { return Overflow; }
      if threads < 32768 { BoundsOf(t, threads); }
      ranges := ranges + [Range(Start(t, threads), End(t, threads))];
      t := t + 1;
    }
    r := Ranges(ranges);
  }

  method RunThread(l: LowBits, check: nat -> bool, range: Range, ghost t: nat, ghost threads: nat) returns (r: Walk)
    requires ValidLow(l) && t < threads < 32768
    requires range == Range(Bound(t, threads), End(t, threads)) && End(t, threads) + 1 == Bound(t + 1, threads)
    ensures r.Walked? <==> FirstExists(l, Bound(t, threads))
    ensures r.Walked? ==> Chain(r.blocks) && Flat(r.blocks) == Share(Wanted(l, check), t, threads)
  {
    BoundsOf(t, threads);
    if l.Any? {
      var blocks := WalkAll(check, range.start, range.end);
      r := Walked(blocks);
    } else {
      r := WalkLow(l, check, range.start, range.end);
    }
  }

  /** What thread t has to find. */
  function Share(f: nat -> bool, t: nat, threads: nat): seq<nat>
    requires t < threads
  {
    var from, to := Bound(t, threads), Bound(t + 1, threads);
    Passing(f, from, if from <= to then to - from else 0)
  }

  /** Every thread finds its first index. */
  ghost predicate AllStart(l: LowBits, threads: nat, n: nat)
    requires n <= threads
  {
    forall t | 0 <= t < n :: FirstExists(l, Bound(t, threads))
  }

  lemma ShareJoins(f: nat -> bool, t: nat, threads: nat)
    requires t < threads < 32768
    ensures Passing(f, 0, Bound(t, threads)) + Share(f, t, threads) == Passing(f, 0, Bound(t + 1, threads))
  {
    BoundsOf(t, threads);
    PassingJoin(f, 0, Bound(t, threads), Bound(t + 1, threads) - Bound(t, threads));
  }

  /** What the whole search finds. */
  function AllFound(l: LowBits, check: nat -> bool, threads: int): seq<nat> {
    if threads <= 0 then [] else Passing(Wanted(l, check), 0, Bound(threads, threads))
  }

  /** The length of a chain decides how many seeds its last block holds. */
  lemma {:induction false} FullBlocks(blocks: seq<seq<nat>>)
    requires forall i | 0 <= i < |blocks| :: |blocks[i]| == BLOCK
    ensures |Flat(blocks)| == BLOCK * |blocks|
  {
    if blocks != [] { FullBlocks(blocks[..|blocks| - 1]); }
  }

  lemma LastOfChain(blocks: seq<seq<nat>>)
    requires Chain(blocks)
    ensures LastPlace(blocks) == |Flat(blocks)| - |Flat(blocks)| % BLOCK
  {
    FullBlocks(blocks[..|blocks| - 1]);
  }

  /** The place of the last block that is merged, when n + k seeds are found and the last
      thread has k of them. */
  function LastStart(n: nat, k: nat): nat {
    n + k - k % BLOCK
  }

  ghost predicate Mergeable(l: LowBits, check: nat -> bool, threads: int) {
    threads <= 0 ||
      LastStart(|Passing(Wanted(l, check), 0, Bound(threads - 1, threads))|,
                |Share(Wanted(l, check), threads - 1, threads)|) < TWO31
  }

  // ------------------------------------------------------ how much a search may find

  function Always(): nat -> bool {
    _ => true
  }

  lemma {:induction false} MoreFound(f: nat -> bool, g: nat -> bool, a: nat, n: nat)
    requires forall s :: f(s) ==> g(s)
    ensures |Passing(f, a, n)| <= |Passing(g, a, n)|
  {
    if n > 0 { MoreFound(f, g, a, n - 1); }
  }

  lemma LastStartGrows(n: nat, k: nat, n': nat, k': nat)
    requires n <= n' && k <= k'
    ensures LastStart(n, k) <= LastStart(n', k')
  {
  }

  /** Whether the merge can go wrong shows on the check that always passes. */
  lemma MergeableForAll(l: LowBits, threads: int)
    ensures (forall check :: Mergeable(l, check, threads)) <==> Mergeable(l, Always(), threads)
  {
    if threads > 0 && Mergeable(l, Always(), threads) {
      var f := Wanted(l, Always());
      var n := Bound(threads - 1, threads);
      forall check ensures Mergeable(l, check, threads) {
        var g := Wanted(l, check);
        MoreFound(g, f, 0, n);
        MoreFound(g, f, n, if n <= Bound(threads, threads) then Bound(threads, threads) - n else 0);
        LastStartGrows(|Passing(g, 0, n)|, |Share(g, threads - 1, threads)|,
                       |Passing(f, 0, n)|, |Share(f, threads - 1, threads)|);
      }
    }
  }

  /** The last block starts less than a block before the end of what is found. */
  lemma LastBlockStart(f: nat -> bool, threads: nat)
    requires 0 < threads < 32768
    ensures var n := LastStart(|Passing(f, 0, Bound(threads - 1, threads))|, |Share(f, threads - 1, threads)|);
      n <= |Passing(f, 0, TWO48)| < n + BLOCK
  {
    ShareJoins(f, threads - 1, threads);
    WholeRange(threads);
  }

  lemma {:induction false} AllPass(l: LowBits, a: nat, n: nat)
    requires l.Any?
    ensures |Passing(Wanted(l, Always()), a, n)| == n
  {
    if n > 0 {
      AllPass(l, a, n - 1);
      assert Wanted(l, Always())(a + n - 1) == Candidate(l, a + n - 1);
    }
  }

  /** Without a list the check that always passes finds too much for any number of threads. */
  lemma WithoutListMisplaced(l: LowBits, threads: nat)
    requires l.Any? && 0 < threads < 32768
    ensures !Mergeable(l, Always(), threads) && AllStart(l, threads, threads)
  {
    AllPass(l, 0, TWO48);
    LastBlockStart(Wanted(l, Always()), threads);
  }

  /** Number of values below n. */
  function Below(values: seq<nat>, n: nat): nat {
    if n == 0 then 0 else Below(values, n - 1) + if n - 1 in values then 1 else 0
  }

  lemma {:induction false} BelowIsIndex(values: seq<nat>, i: nat, n: nat)
    requires Ascending(values) && i <= |values|
    requires (i > 0 ==> values[i - 1] < n) && (i < |values| ==> n <= values[i])
    ensures Below(values, n) == i
    decreases n
  {
    if n > 0 {
      if i > 0 && values[i - 1] == n - 1 {
        BelowIsIndex(values, i - 1, n - 1);
      } else {
        forall j | 0 <= j < |values| ensures values[j] != n - 1 {
          if i > 0 { Sorted(values, j, i - 1); }
          if i < |values| { Sorted(values, i, j); }
        }
        BelowIsIndex(values, i, n - 1);
      }
    }
  }

  /** In one step of the low part, the candidates are the values. */
  lemma {:induction false} StepCount(l: LowBits, base: nat, n: nat)
    requires l.Given? && ValidLow(l) && base % l.m == 0 && n <= l.m
    ensures |Passing(Wanted(l, Always()), base, n)| == Below(l.values, n)
    decreases n
  {
    if n > 0 {
      StepCount(l, base, n - 1);
      LowPart(base, n - 1, l.m);
      assert Wanted(l, Always())(base + n - 1) == Candidate(l, base + n - 1);
    }
  }

  lemma {:induction false} StepsCount(l: LowBits, k: nat)
    requires l.Given? && ValidLow(l)
    ensures 0 <= k * l.m && |Passing(Wanted(l, Always()), 0, k * l.m)| == k * |l.values|
    decreases k
  {
    if k > 0 {
      StepsCount(l, k - 1);
      var base := (k - 1) * l.m;
      ModAddMultiple(0, k - 1, l.m);
      StepCount(l, base, l.m);
      BelowIsIndex(l.values, |l.values|, l.m);
      PassingJoin(Wanted(l, Always()), 0, base, l.m);
      Distribute(k - 1, 1, l.m);
      Distribute(k - 1, 1, |l.values|);
    }
  }

  /** With a list the number of its values decides, up to one block: no check can make the
      merge go wrong if there are fewer than 2^31 candidates, and with a block more than
      that the check that always passes does. */
  lemma WithListMergeable(l: LowBits, threads: nat, k: nat)
    requires l.Given? && ValidLow(l) && TWO48 == k * l.m && 0 < threads < 32768
    ensures k * |l.values| < TWO31 ==> forall check :: Mergeable(l, check, threads)
    ensures k * |l.values| >= TWO31 + BLOCK ==> !Mergeable(l, Always(), threads)
  {
    StepsCount(l, k);
    LastBlockStart(Wanted(l, Always()), threads);
    MergeableForAll(l, threads);
  }

  /** How the search ends: with undefined arithmetic, with a thread that runs past its
      list, with blocks copied to a wrong place, or with the seeds found. */
  datatype Search = Undefined | PastList | Misplaced | Done(buf: array<nat>)

  /** `searchAll48` in memory and without a stop flag, for any number of threads. */
  method SearchAll48(l: LowBits, check: nat -> bool, threads: int) returns (r: Search)
    requires ValidLow(l)
    ensures r.Undefined? <==> threads >= 32768
    ensures r.PastList? <==> 0 < threads < 32768 && !AllStart(l, threads, threads)
    ensures r.Misplaced? ==> !Mergeable(l, check, threads)
    ensures r.Done? ==> Mergeable(l, check, threads) && r.buf[..] == AllFound(l, check, threads)
  {
    var prepared := PrepareRanges(threads);
    if prepared.Overflow? { return Undefined; }
    var ranges := prepared.ranges;
    var chains := [];
    for t := 0 to |ranges|
      invariant Gathered(l, check, threads, chains, t)
    {
      var w := RunThread(l, check, ranges[t], t, threads);
      if w.Overrun? { return PastList; }
      GatherNext(l, check, threads, chains, t, w.blocks);
      chains := chains + [w.blocks];
    }
    AllGathered(l, check, threads, chains);
    var placed, buf := Merge(chains);
    r := if placed then Done(buf) else Misplaced;
  }

  /** The chains of the first n threads hold what those threads have to find. */
  ghost predicate Gathered(l: LowBits, check: nat -> bool, threads: int, chains: seq<seq<seq<nat>>>, n: nat) {
    && |chains| == n && AllChains(chains)
    && (n == 0 || (
      && n <= threads < 32768 && AllStart(l, threads, n)
      && Joined(chains[..n - 1]) == Passing(Wanted(l, check), 0, Bound(n - 1, threads))
      && Flat(chains[n - 1]) == Share(Wanted(l, check), n - 1, threads)))
  }

  lemma GatherNext(l: LowBits, check: nat -> bool, threads: int, chains: seq<seq<seq<nat>>>, n: nat,
                   blocks: seq<seq<nat>>)
    requires Gathered(l, check, threads, chains, n) && n < threads < 32768 && Chain(blocks)
    requires FirstExists(l, Bound(n, threads)) && Flat(blocks) == Share(Wanted(l, check), n, threads)
    ensures Gathered(l, check, threads, chains + [blocks], n + 1)
  {
    assert (chains + [blocks])[..n] == chains;
    JoinedGathered(l, check, threads, chains, n);
  }

  /** Joined, they are the passing candidates up to the bound of the last of them. */
  lemma JoinedGathered(l: LowBits, check: nat -> bool, threads: int, chains: seq<seq<seq<nat>>>, n: nat)
    requires Gathered(l, check, threads, chains, n) && threads > 0
    ensures Joined(chains) == Passing(Wanted(l, check), 0, Bound(n, threads))
  {
    if n > 0 {
      JoinedNext(chains, n - 1);
      assert chains[..n] == chains;
      ShareJoins(Wanted(l, check), n - 1, threads);
    }
  }

  lemma AllGathered(l: LowBits, check: nat -> bool, threads: int, chains: seq<seq<seq<nat>>>)
    requires threads < 32768 && Gathered(l, check, threads, chains, if threads > 0 then threads else 0)
    ensures Joined(chains) == AllFound(l, check, threads)
    ensures Placed(chains, |chains|) <==> Mergeable(l, check, threads)
  {
    if threads > 0 {
      JoinedGathered(l, check, threads, chains, threads);
      LastOfChain(chains[threads - 1]);
    }
  }

  lemma WholeRange(threads: nat)
    requires 0 < threads
    ensures Bound(threads, threads) == TWO48
  {
    ExactQuotient(threads * TWO48, threads, TWO48);
  }

  /** What the buffer holds: every 48-bit seed that passes the check and has one of the
      low values, no other, and none twice. */
  lemma FoundExactly(l: LowBits, check: nat -> bool, threads: nat, s: nat)
    requires ValidLow(l) && 0 < threads
    ensures var found := Passing(Wanted(l, check), 0, Bound(threads, threads));
      && Ascending(found)
      && (s in found <==> s < TWO48 && check(s) && Candidate(l, s))
  {
    WholeRange(threads);
    PassingAscends(Wanted(l, check), 0, Bound(threads, threads));
    InPassing(Wanted(l, check), 0, Bound(threads, threads), s);
  }
}
