/** The shared seed counter of the GPU threads (src/gpu.h): each call of `next` takes the
    next block of seeds with one atomic addition modulo 2^64. */
module SeedBlocks {
  import opened Arith

  class SeedIterator {
    var pos: nat

    constructor (start: nat)
      requires start < TWO64
      ensures pos == start
    {
      pos := start;
    }

    /** `fetch_add`: returns the old position. */
    method Next(count: nat) returns (first: nat)
      requires pos < TWO64 && count < TWO64
      modifies this
      ensures first == old(pos) && pos == U64(old(pos) + count)
    {
      first := pos;
      pos := U64(pos + count);
    }
  }

  /** Positions returned by calls with the given counts, in the order of the additions. */
  function Firsts(start: nat, counts: seq<nat>): seq<nat>
    requires start < TWO64
    decreases |counts|
  {
    if counts == [] then [] else [start] + Firsts(U64(start + counts[0]), counts[1..])
  }

  /** Sum of the first k counts. */
  function Offset(counts: seq<nat>, k: nat): nat
    requires k <= |counts|
  {
    if k == 0 then 0 else Offset(counts, k - 1) + counts[k - 1]
  }

  lemma {:induction false} OffsetShift(counts: seq<nat>, k: nat)
    requires 0 < |counts| && k < |counts|
    ensures Offset(counts, k + 1) == counts[0] + Offset(counts[1..], k)
  {
    if k > 0 { OffsetShift(counts, k - 1); }
  }

  /** Every block starts where the blocks before it end, modulo 2^64. */
  lemma {:induction false} Contiguous(start: nat, counts: seq<nat>, k: nat)
    requires start < TWO64 && k < |counts|
    ensures |Firsts(start, counts)| == |counts|
    ensures Firsts(start, counts)[k] == U64(start + Offset(counts, k))
    decreases |counts|
  {
    var rest := counts[1..];
    if k > 0 {
      Contiguous(U64(start + counts[0]), rest, k - 1);
      OffsetShift(counts, k - 1);
      ModAddCong(U64(start + counts[0]), start + counts[0], Offset(rest, k - 1), Offset(rest, k - 1), TWO64);
    } else if rest != [] {
      Contiguous(U64(start + counts[0]), rest, 0);
    }
  }

  predicate InBlocks(counts: seq<nat>, i: nat, r: nat) {
    i < |counts| && r < counts[i]
  }

  /** The r-th seed that a thread checks of the i-th block handed out. */
  function Seed(firsts: seq<nat>, counts: seq<nat>, i: nat, r: nat): nat
    requires |firsts| == |counts| && InBlocks(counts, i, r)
  {
    U64(firsts[i] + r)
  }

  lemma {:induction false} OffsetMonotone(counts: seq<nat>, i: nat, j: nat)
    requires i <= j <= |counts|
    ensures Offset(counts, i) <= Offset(counts, j)
    decreases j
  {
    if i < j { OffsetMonotone(counts, i, j - 1); }
  }

  /** Different seeds of the blocks have different offsets, below the total. */
  lemma OffsetsDiffer(counts: seq<nat>, i: nat, r: nat, j: nat, q: nat)
    requires InBlocks(counts, i, r) && InBlocks(counts, j, q)
    ensures Offset(counts, i) + r < Offset(counts, |counts|)
    ensures Offset(counts, i) + r == Offset(counts, j) + q ==> i == j && r == q
  {
    OffsetMonotone(counts, i + 1, |counts|);
    if i < j { OffsetMonotone(counts, i + 1, j); }
    if j < i { OffsetMonotone(counts, j + 1, i); }
  }

  /** Every offset below the total lies in some block. */
  lemma {:induction false} Locate(counts: seq<nat>, n: nat, o: nat) returns (i: nat, r: nat)
    requires n <= |counts| && o < Offset(counts, n)
    ensures InBlocks(counts, i, r) && Offset(counts, i) + r == o
    decreases n
  {
    if o < Offset(counts, n - 1) {
      i, r := Locate(counts, n - 1, o);
    } else {
      i, r := n - 1, o - Offset(counts, n - 1);
    }
  }

  /** All seeds of the blocks are different. */
  ghost predicate NoSeedTwice(firsts: seq<nat>, counts: seq<nat>)
    requires |firsts| == |counts|
  {
    forall i: nat, r: nat, j: nat, q: nat | InBlocks(counts, i, r) && InBlocks(counts, j, q) ::
      Seed(firsts, counts, i, r) == Seed(firsts, counts, j, q) ==> i == j && r == q
  }

  /** A seed by the offset of its block. */
  lemma SeedAt(start: nat, counts: seq<nat>, i: nat, r: nat)
    requires start < TWO64 && InBlocks(counts, i, r)
    ensures |Firsts(start, counts)| == |counts|
    ensures Seed(Firsts(start, counts), counts, i, r) == U64(start + (Offset(counts, i) + r))
  {
    Contiguous(start, counts, i);
    ModAddCong(U64(start + Offset(counts, i)), start + Offset(counts, i), r, r, TWO64);
  }

  /** No seed is handed out twice exactly as long as the counts add up to at most 2^64. */
  lemma DisjointUntilWrap(start: nat, counts: seq<nat>)
    requires start < TWO64
    ensures |Firsts(start, counts)| == |counts|
    ensures NoSeedTwice(Firsts(start, counts), counts) <==> Offset(counts, |counts|) <= TWO64
  {
    if counts != [] { Contiguous(start, counts, 0); }
    var firsts := Firsts(start, counts);
    if Offset(counts, |counts|) <= TWO64 {
      forall i: nat, r: nat, j: nat, q: nat | InBlocks(counts, i, r) && InBlocks(counts, j, q)
        && Seed(firsts, counts, i, r) == Seed(firsts, counts, j, q)
        ensures i == j && r == q
      {
        OffsetsDiffer(counts, i, r, j, q);
        OffsetsDiffer(counts, j, q, i, r);
        SeedAt(start, counts, i, r);
        SeedAt(start, counts, j, q);
        SameSeed(start, Offset(counts, i) + r, Offset(counts, j) + q);
      }
    } else {
      var i, r := Locate(counts, |counts|, 0);
      var j, q := Locate(counts, |counts|, TWO64);
      SeedAt(start, counts, i, r);
      SeedAt(start, counts, j, q);
      ModAddMultiple(start, 1, TWO64);
      assert Seed(firsts, counts, i, r) == Seed(firsts, counts, j, q);
    }
  }

  lemma SameSeed(start: nat, a: nat, b: nat)
    requires a < TWO64 && b < TWO64 && U64(start + a) == U64(start + b)
    ensures a == b
  {
    var k := CongruentDifference(start + a, start + b, TWO64);
    MultipleBounds(k, TWO64);
  }

  // ---------------------------------------------------------------- calls of the object

  /** The first k positions of a longer list of calls. */
  lemma {:induction false} FirstsPrefix(start: nat, counts: seq<nat>, k: nat)
    requires start < TWO64 && k < |counts|
    ensures Firsts(start, counts[..k + 1]) == Firsts(start, counts[..k]) + [U64(start + Offset(counts[..k], k))]
    decreases k
  {
    var longer, shorter := counts[..k + 1], counts[..k];
    if k > 0 {
      assert longer[1..] == counts[1..][..k] && shorter[1..] == counts[1..][..k - 1];
      FirstsPrefix(U64(start + counts[0]), counts[1..], k - 1);
      OffsetShift(shorter, k - 1);
      ModAddCong(U64(start + counts[0]), start + counts[0],
        Offset(shorter[1..], k - 1), Offset(shorter[1..], k - 1), TWO64);
    } else {
      assert longer[1..] == [] && shorter == [];
    }
  }

  lemma {:induction false} OffsetPrefix(counts: seq<nat>, k: nat, n: nat)
    requires k <= n <= |counts|
    ensures Offset(counts[..n], k) == Offset(counts, k)
    decreases k
  {
    if k > 0 { OffsetPrefix(counts, k - 1, n); }
  }

  /** What the GPU threads get from one iterator, whichever thread makes which call: the
      blocks lie one behind the other from its position on, and are disjoint as long as
      the counts add up to at most 2^64. */
  method HandOut(it: SeedIterator, counts: seq<nat>) returns (firsts: seq<nat>)
    requires it.pos < TWO64 && forall k :: 0 <= k < |counts| ==> counts[k] < TWO64
    modifies it
    ensures firsts == Firsts(old(it.pos), counts) && it.pos == U64(old(it.pos) + Offset(counts, |counts|))
    ensures |firsts| == |counts|
    ensures forall k :: 0 <= k < |counts| ==> firsts[k] == U64(old(it.pos) + Offset(counts, k))
    ensures NoSeedTwice(firsts, counts) <==> Offset(counts, |counts|) <= TWO64
  {
    firsts := [];
    ghost var start := it.pos;
    for k := 0 to |counts|
      invariant firsts == Firsts(start, counts[..k]) && it.pos == U64(start + Offset(counts, k))
    {
      FirstsPrefix(start, counts, k);
      OffsetPrefix(counts, k, k);
      ModAddCong(it.pos, start + Offset(counts, k), counts[k], counts[k], TWO64);
      var first := it.Next(counts[k]);
      firsts := firsts + [first];
    }
    assert counts[..|counts|] == counts;
    DisjointUntilWrap(start, counts);
    forall k: nat | k < |counts| ensures firsts[k] == U64(start + Offset(counts, k)) {
      Contiguous(start, counts, k);
    }
  }
}
