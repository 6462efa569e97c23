/**
 * Guessing the key size of a repeating-key XOR (`guess_keysize`): for every
 * candidate size 2..40, take the first four blocks of that size, average the
 * edit distance over all pairs of them, divide by the size, and pick the
 * size of least normalized distance (the smallest such size on a tie).
 * Short data makes the Rust code panic; a corrected search, which cuts the
 * short last block off each sample, is modelled beside it.
 */
module KeySize {
  import opened Common
  import opened Xor
  import opened Blocks

  const MinKeysize: nat := 2
  const MaxKeysize: nat := 40
  /** At most this many blocks are compared for each candidate size. */
  const SampleBlocks: nat := 4

  /** `data.chunks(k).take(4)`. */
  function Sample(data: seq<bv8>, k: nat): (blocks: seq<seq<bv8>>)
    requires k > 0
    ensures |blocks| <= SampleBlocks
  {
    var chunks := Chunks(data, k);
    chunks[..Min(SampleBlocks, |chunks|)]
  }

  /** The sampled blocks can be compared: there are at least two, so there
      is a pair to average over, and all have length `k`, so every edit
      distance is defined. Otherwise the Rust code panics, on a length
      mismatch or on ordering the not-a-number that zero pairs give. */
  predicate Comparable(data: seq<bv8>, k: nat)
    requires k > 0
  {
    |Sample(data, k)| >= 2 && Rectangular(Sample(data, k), k)
  }

  /** The same condition on the length of the data alone. */
  predicate Usable(data: seq<bv8>, k: nat)
  {
    |data| >= SampleBlocks * k || |data| == 2 * k || |data| == 3 * k
  }

  /** Data of at least `m * k` bytes starts with `m` full blocks of size `k`. */
  lemma {:induction false} FullBlocks(data: seq<bv8>, k: nat, m: nat)
    requires k > 0 && m * k <= |data|
    ensures |Chunks(data, k)| >= m
    ensures forall i :: 0 <= i < m ==> |Chunks(data, k)[i]| == k
    decreases m
  {
    if m > 0 {
      Distribute(k, m - 1, 1);
      assert m * k == (m - 1) * k + k;
      if |data| > k {
        var rest := data[k..];
        FullBlocks(rest, k, m - 1);
        assert Chunks(data, k) == [data[..k]] + Chunks(rest, k);
      } else if m > 1 {
        MulAtLeast(m - 1, k);
      }
    }
  }

  /** Data of exactly `m * k` bytes has exactly `m` blocks of size `k`. */
  lemma ExactBlocks(data: seq<bv8>, k: nat, m: nat)
    requires k > 0 && m * k == |data|
    ensures |Chunks(data, k)| == m
  {
    FullBlocks(data, k, m);
    var n := |Chunks(data, k)|;
    ChunkCount(data, k);
    if n > m {
      MulMono(m, n - 1, k);
    }
  }

  lemma UsableComparable(data: seq<bv8>, k: nat)
    requires k > 0 && Usable(data, k)
    ensures Comparable(data, k)
  {
    if |data| >= 4 * k {
      FullBlocks(data, k, 4);
    } else if |data| == 2 * k {
      ExactBlocks(data, k, 2);
      FullBlocks(data, k, 2);
    } else {
      ExactBlocks(data, k, 3);
      FullBlocks(data, k, 3);
    }
  }

  lemma ComparableUsable(data: seq<bv8>, k: nat)
    requires k > 0 && Comparable(data, k)
    ensures Usable(data, k)
  {
    var n := |Chunks(data, k)|;
    var m := |Sample(data, k)|;
    ChunkCount(data, k);
    ChunkAt(data, k, m - 1);
    assert |Chunks(data, k)[m - 1]| == k;
    if m == 2 {
      assert n == 2;
    } else if m == 3 {
      assert n == 3;
    }
  }

  /** The sampled blocks can be compared exactly when the data holds at
      least four blocks, or exactly two or three. */
  lemma UsableIff(data: seq<bv8>, k: nat)
    requires k > 0
    ensures Usable(data, k) <==> Comparable(data, k)
  {
    if Usable(data, k) {
      UsableComparable(data, k);
    }
    if Comparable(data, k) {
      ComparableUsable(data, k);
    }
  }

  /** Every candidate size can be compared exactly when the data is at
      least 160 bytes long; on anything shorter the Rust code panics. */
  lemma AllUsableIff(data: seq<bv8>)
    ensures (forall k :: MinKeysize <= k <= MaxKeysize ==> Usable(data, k)) <==> |data| >= 160
  {
    if |data| < 160 {
      assert !Usable(data, 39) || !Usable(data, 40);
    }
  }

  /** Whether every row of `d` has as many entries as `d` has rows. */
  predicate Square(d: seq<seq<nat>>)
  {
    forall i :: 0 <= i < |d| ==> |d[i]| == |d|
  }

  /** The distances from block `i` to the blocks before `n`. */
  function DistanceRow(blocks: seq<seq<bv8>>, w: nat, i: nat, n: nat): (row: seq<nat>)
    requires Rectangular(blocks, w) && i < |blocks| && n <= |blocks|
    ensures |row| == n
  {
    if n == 0 then [] else DistanceRow(blocks, w, i, n - 1) + [EditDistance(blocks[i], blocks[n - 1])]
  }

  /** The rows of distances from each block before `n`. */
  function DistanceRows(blocks: seq<seq<bv8>>, w: nat, n: nat): (d: seq<seq<nat>>)
    requires Rectangular(blocks, w) && n <= |blocks|
    ensures |d| == n && forall r :: 0 <= r < n ==> |d[r]| == |blocks|
  {
    if n == 0 then [] else DistanceRows(blocks, w, n - 1) + [DistanceRow(blocks, w, n - 1, |blocks|)]
  }

  /** The edit distance between every two blocks: entry `[i][j]` is the
      distance from block `i` to block `j`. */
  function Distances(blocks: seq<seq<bv8>>, w: nat): (d: seq<seq<nat>>)
    requires Rectangular(blocks, w)
    ensures |d| == |blocks| && Square(d)
  {
    DistanceRows(blocks, w, |blocks|)
  }

  lemma {:induction false} DistanceRowAt(blocks: seq<seq<bv8>>, w: nat, i: nat, n: nat, j: nat)
    requires Rectangular(blocks, w) && i < |blocks| && j < n <= |blocks|
    ensures DistanceRow(blocks, w, i, n)[j] == EditDistance(blocks[i], blocks[j])
  {
    if j < n - 1 {
      DistanceRowAt(blocks, w, i, n - 1, j);
    }
  }

  lemma {:induction false} DistanceRowsAt(blocks: seq<seq<bv8>>, w: nat, n: nat, i: nat)
    requires Rectangular(blocks, w) && i < n <= |blocks|
    ensures DistanceRows(blocks, w, n)[i] == DistanceRow(blocks, w, i, |blocks|)
  {
    if i < n - 1 {
      DistanceRowsAt(blocks, w, n - 1, i);
    }
  }

  lemma DistancesAt(blocks: seq<seq<bv8>>, w: nat, i: nat, j: nat)
    requires Rectangular(blocks, w) && i < |blocks| && j < |blocks|
    ensures Distances(blocks, w)[i][j] == EditDistance(blocks[i], blocks[j])
  {
    DistanceRowsAt(blocks, w, |blocks|, i);
    DistanceRowAt(blocks, w, i, |blocks|, j);
  }

  /** The summed entries `d[i][l]` for `i < l < j`: the distances from block
      `i` to the later blocks before `j`. */
  function RowSum(d: seq<seq<nat>>, i: nat, j: nat): nat
    requires Square(d) && i < j <= |d|
    decreases j
  {
    if j == i + 1 then 0 else RowSum(d, i, j - 1) + d[i][j - 1]
  }

  /** The summed distances over all pairs whose first block is before `i`. */
  function PairSum(d: seq<seq<nat>>, i: nat): nat
    requires Square(d) && i <= |d|
  {
    if i == 0 then 0 else PairSum(d, i - 1) + RowSum(d, i - 1, |d|)
  }

  /** The number of pairs whose first block is before `i`, among `m` blocks. */
  function PairCount(m: nat, i: nat): nat
    requires i <= m
  {
    if i == 0 then 0 else PairCount(m, i - 1) + (m - i)
  }

  /** Among `m` blocks there are `m * (m - 1) / 2` pairs. */
  lemma {:induction false} PairCountClosed(m: nat, i: nat)
    requires i <= m
    ensures 2 * PairCount(m, i) == i * (2 * m - i - 1)
  {
    if i > 0 {
      PairCountClosed(m, i - 1);
    }
  }

  lemma PairCountPositive(m: nat)
    requires m >= 2
    ensures PairCount(m, m) >= 1
  {
    PairCountClosed(m, m);
    MulMono(1, m, m - 1);
  }

  /** The mean edit distance over all pairs of `blocks`, each `k` bytes
      long, per byte of block. */
  function BlocksDistance(blocks: seq<seq<bv8>>, k: nat): real
    requires k > 0 && |blocks| >= 2 && Rectangular(blocks, k)
  {
    PairCountPositive(|blocks|);
    MulMono(1, PairCount(|blocks|, |blocks|), k);
    PairSum(Distances(blocks, k), |blocks|) as real / (PairCount(|blocks|, |blocks|) * k) as real
  }

  /** The normalized distance for size `k`: the mean edit distance over all
      pairs of sampled blocks, per byte of block. */
  function NormalizedDistance(data: seq<bv8>, k: nat): real
    requires k > 0 && Usable(data, k)
  {
    UsableIff(data, k);
    BlocksDistance(Sample(data, k), k)
  }

  /** A row of entries at most `bound` sums to at most `bound` per entry. */
  lemma {:induction false} RowSumBound(d: seq<seq<nat>>, bound: nat, i: nat, j: nat)
    requires Square(d) && i < j <= |d|
    requires forall l :: i < l < j ==> d[i][l] <= bound
    ensures RowSum(d, i, j) <= bound * (j - i - 1)
    decreases j
  {
    if j > i + 1 {
      RowSumBound(d, bound, i, j - 1);
      Distribute(bound, j - 1 - i - 1, 1);
    }
  }

  lemma {:induction false} PairSumBound(d: seq<seq<nat>>, bound: nat, i: nat)
    requires Square(d) && i <= |d|
    requires forall r, l :: 0 <= r < l < |d| ==> d[r][l] <= bound
    ensures PairSum(d, i) <= bound * PairCount(|d|, i)
  {
    if i > 0 {
      PairSumBound(d, bound, i - 1);
      RowSumBound(d, bound, i - 1, |d|);
      Distribute(bound, PairCount(|d|, i - 1), |d| - i);
    }
  }

  /** The normalized distance is a number of differing bits per byte, so it
      lies between 0 and 8. */
  lemma BlocksDistanceBound(blocks: seq<seq<bv8>>, k: nat)
    requires k > 0 && |blocks| >= 2 && Rectangular(blocks, k)
    ensures 0.0 <= BlocksDistance(blocks, k) <= 8.0
  {
    var s := blocks;
    var m := |s|;
    var d := Distances(s, k);
    forall r, l | 0 <= r < l < m
      ensures d[r][l] <= 8 * k
    {
      DistancesAt(s, k, r, l);
      EditDistanceBound(s[r], s[l]);
    }
    PairSumBound(d, 8 * k, m);
    var pairs := PairCount(m, m);
    PairCountPositive(m);
    MulMono(1, pairs, k);
    assert 8 * k * pairs == 8 * (pairs * k);
    QuotientBound(PairSum(d, m), pairs * k, 8);
  }

  lemma NormalizedDistanceBound(data: seq<bv8>, k: nat)
    requires k > 0 && Usable(data, k)
    ensures 0.0 <= NormalizedDistance(data, k) <= 8.0
  {
    UsableIff(data, k);
    BlocksDistanceBound(Sample(data, k), k);
  }

  /** A row sums to zero exactly when each of its entries is zero. */
  lemma {:induction false} RowSumZero(d: seq<seq<nat>>, i: nat, j: nat)
    requires Square(d) && i < j <= |d|
    ensures RowSum(d, i, j) == 0 <==> forall l :: i < l < j ==> d[i][l] == 0
    decreases j
  {
    if j > i + 1 {
      RowSumZero(d, i, j - 1);
    }
  }

  /** The pairs before `i` sum to zero exactly when each of their entries is
      zero. */
  lemma {:induction false} PairSumZero(d: seq<seq<nat>>, i: nat)
    requires Square(d) && i <= |d|
    ensures PairSum(d, i) == 0 <==> forall r, l :: 0 <= r < i && r < l < |d| ==> d[r][l] == 0
  {
    if i > 0 {
      PairSumZero(d, i - 1);
      RowSumZero(d, i - 1, |d|);
    }
  }

  /** The mean distance is zero exactly when all the blocks are equal. */
  lemma BlocksDistanceZeroIff(blocks: seq<seq<bv8>>, k: nat)
    requires k > 0 && |blocks| >= 2 && Rectangular(blocks, k)
    ensures BlocksDistance(blocks, k) == 0.0 <==> forall l :: 0 <= l < |blocks| ==> blocks[l] == blocks[0]
  {
    var s := blocks;
    var m := |s|;
    var d := Distances(s, k);
    PairSumZero(d, m);
    PairCountPositive(m);
    MulMono(1, PairCount(m, m), k);
    QuotientZero(PairSum(d, m), PairCount(m, m) * k);
    if forall l :: 0 <= l < m ==> s[l] == s[0] {
      forall r, l | 0 <= r < l < m
        ensures d[r][l] == 0
      {
        DistancesAt(s, k, r, l);
        EditDistanceZeroIff(s[r], s[l]);
      }
    }
    if PairSum(d, m) == 0 {
      forall l | 0 < l < m
        ensures s[l] == s[0]
      {
        DistancesAt(s, k, 0, l);
        EditDistanceZeroIff(s[0], s[l]);
      }
    }
  }

  /** The normalized distance is zero exactly when all sampled blocks are
      equal. */
  lemma NormalizedDistanceZeroIff(data: seq<bv8>, k: nat)
    requires k > 0 && Usable(data, k)
    ensures NormalizedDistance(data, k) == 0.0 <==>
            forall l :: 0 <= l < |Sample(data, k)| ==> Sample(data, k)[l] == Sample(data, k)[0]
  {
    UsableIff(data, k);
    BlocksDistanceZeroIff(Sample(data, k), k);
  }

  /** The inner pair loop of `guess_keysize`: the summed edit distance
      between block `i` and every later block, and the number of those. */
  method SumRow(blocks: seq<seq<bv8>>, w: nat, i: nat) returns (rowDistance: nat, count: nat)
    requires Rectangular(blocks, w) && i < |blocks|
    ensures rowDistance == RowSum(Distances(blocks, w), i, |blocks|)
    ensures count == |blocks| - i - 1
  {
    ghost var d := Distances(blocks, w);
    rowDistance, count := 0, 0;
    for j := i + 1 to |blocks|
      invariant rowDistance == RowSum(d, i, j)
      invariant count == j - i - 1
    {
      DistancesAt(blocks, w, i, j);
      rowDistance := rowDistance + EditDistance(blocks[i], blocks[j]);
      count := count + 1;
    }
  }

  /** The pair loops of `guess_keysize`: the summed edit distance over all
      pairs of blocks, and the number of pairs. */
  method SumPairDistances(blocks: seq<seq<bv8>>, w: nat) returns (totalDistance: nat, pairs: nat)
    requires Rectangular(blocks, w)
    ensures totalDistance == PairSum(Distances(blocks, w), |blocks|)
    ensures pairs == PairCount(|blocks|, |blocks|)
  {
    ghost var d := Distances(blocks, w);
    totalDistance, pairs := 0, 0;
    for i := 0 to |blocks|
      invariant totalDistance == PairSum(d, i)
      invariant pairs == PairCount(|blocks|, i)
    {
      var rowDistance, count := SumRow(blocks, w, i);
      assert PairSum(d, i + 1) == PairSum(d, i) + rowDistance;
      totalDistance := totalDistance + rowDistance;
      pairs := pairs + count;
    }
  }

  /** `distances.sort_by(..)` followed by `distances[0]`: a stable sort by
      distance puts first the earliest entry of least distance, and this
      scan finds that entry. */
  method FirstLeast(distances: seq<(nat, real)>) returns (best: nat)
    requires |distances| > 0
    ensures best < |distances|
    ensures forall j :: 0 <= j < |distances| ==> distances[best].1 <= distances[j].1
    ensures forall j :: 0 <= j < best ==> distances[best].1 < distances[j].1
  {
    best := 0;
    for i := 1 to |distances|
      invariant 0 <= best < i
      invariant forall j :: 0 <= j < i ==> distances[best].1 <= distances[j].1
      invariant forall j :: 0 <= j < best ==> distances[best].1 < distances[j].1
    {
      if distances[i].1 < distances[best].1 {
        best := i;
      }
    }
  }

  /** The first loop of `guess_keysize`: one entry `(k, distance)` per
      candidate size `k`, in increasing order of size. */
  method CandidateDistances(data: seq<bv8>) returns (distances: seq<(nat, real)>)
    requires |data| >= 160
    ensures |distances| == MaxKeysize - MinKeysize + 1
    ensures forall i :: 0 <= i < |distances| ==>
              distances[i] == (i + MinKeysize, NormalizedDistance(data, i + MinKeysize))
  {
    distances := [];
    for size := MinKeysize to MaxKeysize + 1
      invariant |distances| == size - MinKeysize
      invariant forall i :: 0 <= i < |distances| ==>
                  distances[i] == (i + MinKeysize, NormalizedDistance(data, i + MinKeysize))
    {
      UsableIff(data, size);
      var normalizedDistance := MeasureBlocks(Sample(data, size), size);
      distances := distances + [(size, normalizedDistance)];
    }
  }

  /** The body of the first loop of `guess_keysize` once the blocks of one
      size are sampled: sum the pairwise distances, then normalize. */
  method MeasureBlocks(blocks: seq<seq<bv8>>, k: nat) returns (distance: real)
    requires k > 0 && |blocks| >= 2 && Rectangular(blocks, k)
    ensures distance == BlocksDistance(blocks, k)
  {
    var totalDistance, pairs := SumPairDistances(blocks, k);
    PairCountPositive(|blocks|);
    MulMono(1, pairs, k);
    distance := totalDistance as real / (pairs * k) as real;
  }

  /** `guess_keysize`. Data shorter than 160 bytes makes some candidate
      panic (see `AllUsableIff`), so it is excluded. */
  method GuessKeysize(data: seq<bv8>) returns (keysize: nat)
    requires |data| >= 160
    ensures MinKeysize <= keysize <= MaxKeysize
    ensures forall k :: MinKeysize <= k <= MaxKeysize ==>
              NormalizedDistance(data, keysize) <= NormalizedDistance(data, k)
    ensures forall k :: MinKeysize <= k < keysize ==>
              NormalizedDistance(data, keysize) < NormalizedDistance(data, k)
  {
    var distances := CandidateDistances(data);
    var best := FirstLeast(distances);
    keysize := distances[best].0;
    forall k | MinKeysize <= k <= MaxKeysize
      ensures NormalizedDistance(data, keysize) <= NormalizedDistance(data, k)
      ensures k < keysize ==> NormalizedDistance(data, keysize) < NormalizedDistance(data, k)
    {
      assert distances[k - MinKeysize].1 == NormalizedDistance(data, k);
    }
  }

  /** On 100 bytes every size 2..25 can be compared, and size 26 is the
      first that cannot: its sample is blocks of 26, 26, 26 and 22 bytes, so
      the Rust code calls `edit_distance` on the first and the fourth block,
      of unequal length, and panics. Its first three blocks are full, so the
      corrected search below ranks size 26 on those. */
  lemma ShortDataPanics(data: seq<bv8>)
    requires |data| == 100
    ensures forall k :: MinKeysize <= k <= 25 ==> Usable(data, k)
    ensures |Sample(data, 26)| == 4 && |Sample(data, 26)[0]| == 26 && |Sample(data, 26)[3]| == 22
    ensures !Comparable(data, 26)
    ensures Rankable(data, 26) && |FullSample(data, 26)| == 3
  {
    ChunkCount(data, 26);
    ChunkAt(data, 26, 0);
    ChunkAt(data, 26, 3);
  }

  /** How many of the first four blocks of size `k` are full. */
  function FullCount(data: seq<bv8>, k: nat): (m: nat)
    ensures m <= SampleBlocks && m * k <= |data|
  {
    if |data| >= 4 * k then 4
    else if |data| >= 3 * k then 3
    else if |data| >= 2 * k then 2
    else if |data| >= k then 1
    else 0
  }

  /** The blocks a corrected key-size search compares: the sample with its
      short last block, if any, cut off, that is the first `FullCount`
      blocks. */
  function FullSample(data: seq<bv8>, k: nat): (blocks: seq<seq<bv8>>)
    requires k > 0
    ensures |blocks| == FullCount(data, k)
  {
    FullBlocks(data, k, FullCount(data, k));
    Chunks(data, k)[..FullCount(data, k)]
  }

  /** Every block of the corrected sample is `k` bytes long. */
  lemma FullSampleRectangular(data: seq<bv8>, k: nat)
    requires k > 0
    ensures Rectangular(FullSample(data, k), k)
  {
    FullBlocks(data, k, FullCount(data, k));
  }

  /** That count is `min(4, |data| / k)`. */
  lemma FullCountQuotient(data: seq<bv8>, k: nat)
    requires k > 0
    ensures FullCount(data, k) == Min(SampleBlocks, |data| / k)
  {
    var m := FullCount(data, k);
    QuotientAtLeast(|data|, k, m);
    if m < SampleBlocks {
      QuotientAtLeast(|data|, k, m + 1);
    }
  }

  /** A size can be ranked once the data holds two full blocks of it. */
  predicate Rankable(data: seq<bv8>, k: nat)
  {
    |data| >= 2 * k
  }

  /** There is a pair of full blocks to compare exactly when the size can
      be ranked. */
  lemma RankableIff(data: seq<bv8>, k: nat)
    requires k > 0
    ensures Rankable(data, k) <==> |FullSample(data, k)| >= 2
  {
  }

  /** Wherever the Rust code compares blocks without panicking, the full
      blocks are exactly its sampled blocks. */
  lemma FullSampleAgrees(data: seq<bv8>, k: nat)
    requires k > 0 && Usable(data, k)
    ensures FullSample(data, k) == Sample(data, k)
  {
    if |data| >= SampleBlocks * k {
      FullBlocks(data, k, SampleBlocks);
    } else if |data| == 2 * k {
      ExactBlocks(data, k, 2);
    } else {
      ExactBlocks(data, k, 3);
    }
  }

  /** The normalized distance over the corrected sample. */
  function TruncatedDistance(data: seq<bv8>, k: nat): real
    requires k > 0 && Rankable(data, k)
  {
    FullSampleRectangular(data, k);
    BlocksDistance(FullSample(data, k), k)
  }

  lemma TruncatedDistanceBound(data: seq<bv8>, k: nat)
    requires k > 0 && Rankable(data, k)
    ensures 0.0 <= TruncatedDistance(data, k) <= 8.0
  {
    FullSampleRectangular(data, k);
    BlocksDistanceBound(FullSample(data, k), k);
  }

  /** On a size the Rust code can measure, the corrected distance is the
      normalized distance it computes. */
  lemma TruncatedDistanceAgrees(data: seq<bv8>, k: nat)
    requires k > 0 && Usable(data, k)
    ensures TruncatedDistance(data, k) == NormalizedDistance(data, k)
  {
    FullSampleAgrees(data, k);
  }

  /** On data of at least 160 bytes, where `guess_keysize` ranks every size,
      the corrected search ranks every size too, by the same distances. */
  lemma CorrectedAgreesOnLongData(data: seq<bv8>)
    requires |data| >= 160
    ensures forall k :: MinKeysize <= k <= MaxKeysize ==>
              Usable(data, k) && Rankable(data, k) && TruncatedDistance(data, k) == NormalizedDistance(data, k)
  {
    forall k | MinKeysize <= k <= MaxKeysize
      ensures Usable(data, k) && TruncatedDistance(data, k) == NormalizedDistance(data, k)
    {
      TruncatedDistanceAgrees(data, k);
    }
  }

  /** No size 2..40 can be ranked exactly when the data is shorter than
      two blocks of the smallest size. */
  lemma NoneRankableIff(data: seq<bv8>)
    ensures (forall k :: MinKeysize <= k <= MaxKeysize ==> !Rankable(data, k)) <==> |data| < 2 * MinKeysize
  {
    if |data| >= 2 * MinKeysize {
      assert Rankable(data, MinKeysize);
    }
  }

  /** The corrected body of the first loop of `guess_keysize` for one size:
      measure the full blocks only. */
  method MeasureFullBlocks(data: seq<bv8>, size: nat) returns (distance: real)
    requires size > 0 && Rankable(data, size)
    ensures distance == TruncatedDistance(data, size)
  {
    FullSampleRectangular(data, size);
    distance := MeasureBlocks(FullSample(data, size), size);
  }

  /** How many sizes from 2 up to `n - 1` the data holds two full blocks
      of: those sizes run from 2 up to half the length of the data. */
  function RankableBelow(data: seq<bv8>, n: nat): (count: nat)
    ensures forall k :: MinKeysize <= k < n ==> (Rankable(data, k) <==> k - MinKeysize < count)
  {
    var top := Min(n, |data| / 2 + 1);
    if top <= MinKeysize then 0 else top - MinKeysize
  }

  /** The first loop of `guess_keysize` with the short last block of each
      sample cut off and every size with fewer than two full blocks
      skipped: entry `i` is size `i + 2` with its corrected distance, for
      every size that can be ranked. */
  method RankableDistances(data: seq<bv8>) returns (distances: seq<(nat, real)>)
    ensures |distances| == RankableBelow(data, MaxKeysize + 1)
    ensures forall i :: 0 <= i < |distances| ==>
              Rankable(data, i + MinKeysize) && distances[i] == (i + MinKeysize, TruncatedDistance(data, i + MinKeysize))
  {
    distances := [];
    for size := MinKeysize to MaxKeysize + 1
      invariant |distances| == RankableBelow(data, size)
      invariant forall i :: 0 <= i < |distances| ==>
                  Rankable(data, i + MinKeysize) && distances[i] == (i + MinKeysize, TruncatedDistance(data, i + MinKeysize))
    {
      if Rankable(data, size) {
        var distance := MeasureFullBlocks(data, size);
        distances := distances + [(size, distance)];
      }
    }
  }

  /** The key-size guess with the short last block of each sample cut off:
      every size the data holds two full blocks of is ranked on its full
      blocks, `None` comes back exactly when there is no such size (fewer
      than four bytes), and otherwise the smallest size of least distance. */
  method GuessRankableKeysize(data: seq<bv8>) returns (r: Option<nat>)
    ensures r.None? <==> |data| < 2 * MinKeysize
    ensures r.None? <==> forall k :: MinKeysize <= k <= MaxKeysize ==> !Rankable(data, k)
    ensures r.Some? ==> MinKeysize <= r.value <= MaxKeysize && Rankable(data, r.value)
    ensures r.Some? ==> forall k :: MinKeysize <= k <= MaxKeysize && Rankable(data, k) ==>
              TruncatedDistance(data, r.value) <= TruncatedDistance(data, k)
    ensures r.Some? ==> forall k :: MinKeysize <= k < r.value && Rankable(data, k) ==>
              TruncatedDistance(data, r.value) < TruncatedDistance(data, k)
  {
    var distances := RankableDistances(data);
    NoneRankableIff(data);
    if |distances| == 0 {
      return None;
    }
    var best := FirstLeast(distances);
    var keysize := distances[best].0;
    forall k | MinKeysize <= k <= MaxKeysize && Rankable(data, k)
      ensures TruncatedDistance(data, keysize) <= TruncatedDistance(data, k)
      ensures k < keysize ==> TruncatedDistance(data, keysize) < TruncatedDistance(data, k)
    {
      assert distances[k - MinKeysize].1 == TruncatedDistance(data, k);
    }
    r := Some(keysize);
  }
}
