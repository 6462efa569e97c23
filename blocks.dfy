/**
 * Splitting a sequence into consecutive blocks, as `slice::chunks` does:
 * every block holds `size` elements except the last, which holds what is
 * left (at least one element). An empty sequence has no blocks.
 */
module Blocks {
  import opened Common

  /** `slice::chunks(size)`; a block size of zero is a panic there, so a
      positive size is demanded of the caller. */
  function Chunks<T>(s: seq<T>, size: nat): (r: seq<seq<T>>)
    requires size > 0
    ensures |s| == 0 <==> |r| == 0
    decreases |s|
  {
    if |s| == 0 then []
    else if |s| <= size then [s]
    else [s[..size]] + Chunks(s[size..], size)
  }

  /** No block is empty and none is longer than `size`. */
  lemma {:induction false} ChunkLengths<T>(s: seq<T>, size: nat)
    requires size > 0
    ensures forall i :: 0 <= i < |Chunks(s, size)| ==> 0 < |Chunks(s, size)[i]| <= size
    decreases |s|
  {
    if |s| > size {
      ChunkLengths(s[size..], size);
      assert Chunks(s, size)[1..] == Chunks(s[size..], size);
    }
  }

  /** Blocks that all have the same length `w`. */
  predicate Rectangular<T>(blocks: seq<seq<T>>, w: nat)
  {
    forall i :: 0 <= i < |blocks| ==> |blocks[i]| == w
  }

  /** The blocks laid end to end. */
  function Concat<T>(blocks: seq<seq<T>>): seq<T>
  {
    if |blocks| == 0 then [] else blocks[0] + Concat(blocks[1..])
  }

  /** Laying the blocks end to end gives back the sequence. */
  lemma {:induction false} ConcatChunks<T>(s: seq<T>, size: nat)
    requires size > 0
    ensures Concat(Chunks(s, size)) == s
    decreases |s|
  {
    if |s| > size {
      ConcatChunks(s[size..], size);
      assert Chunks(s, size)[1..] == Chunks(s[size..], size);
      assert s == s[..size] + s[size..];
    }
  }

  /** Block `i` is the slice of `s` from `i * size` up to `(i + 1) * size`,
      or up to the end of `s` for the last block. */
  lemma {:induction false} ChunkAt<T>(s: seq<T>, size: nat, i: nat)
    requires size > 0 && i < |Chunks(s, size)|
    ensures i * size < |s|
    ensures Chunks(s, size)[i] == s[i * size .. Min((i + 1) * size, |s|)]
    decreases i
  {
    if i > 0 {
      ChunksStep(s, size, i);
      var rest := s[size..];
      ChunkAt(rest, size, i - 1);
      Distribute(size, i - 1, 1);
      Distribute(size, i, 1);
      var lo := (i - 1) * size;
      var hi := Min(i * size, |rest|);
      assert lo + size == i * size;
      assert hi + size == Min((i + 1) * size, |s|);
      SliceOfDrop(s, size, lo, hi);
    }
  }

  /** Block `i > 0` of `s` is block `i - 1` of what follows the first. */
  lemma ChunksStep<T>(s: seq<T>, size: nat, i: nat)
    requires size > 0 && 0 < i < |Chunks(s, size)|
    ensures |s| > size && i - 1 < |Chunks(s[size..], size)|
    ensures Chunks(s, size)[i] == Chunks(s[size..], size)[i - 1]
  {
  }

  lemma SliceOfDrop<T>(s: seq<T>, k: nat, lo: nat, hi: nat)
    requires k <= |s| && lo <= hi <= |s| - k
    ensures s[k..][lo..hi] == s[k + lo .. k + hi]
  {
    var a, b := s[k..][lo..hi], s[k + lo .. k + hi];
    assert |a| == |b|;
    forall t | 0 <= t < |a|
      ensures a[t] == b[t]
    {
    }
  }

  /** There are just enough blocks to hold the sequence: the blocks before
      the last one hold less than all of it, all blocks together hold it. */
  lemma {:induction false} ChunkCount<T>(s: seq<T>, size: nat)
    requires size > 0
    ensures |Chunks(s, size)| > 0 ==> (|Chunks(s, size)| - 1) * size < |s|
    ensures |s| <= |Chunks(s, size)| * size
    decreases |s|
  {
    var n := |Chunks(s, size)|;
    if |s| > size {
      ChunkCount(s[size..], size);
      assert n == |Chunks(s[size..], size)| + 1;
      assert (n - 1) * size == (n - 2) * size + size;
      assert n * size == (n - 1) * size + size;
    }
  }

  /** Every block but the last is full. */
  lemma ChunkFull<T>(s: seq<T>, size: nat, i: nat)
    requires size > 0 && i + 1 < |Chunks(s, size)|
    ensures |Chunks(s, size)[i]| == size
  {
    ChunkAt(s, size, i);
    ChunkAt(s, size, i + 1);
    assert (i + 1) * size == i * size + size;
  }

  /** Cutting full blocks laid end to end gives back the blocks, whatever
      the length of the last one. */
  lemma {:induction false} ChunksOfConcat<T>(blocks: seq<seq<T>>, size: nat)
    requires size > 0
    requires forall i :: 0 <= i < |blocks| ==> 0 < |blocks[i]| <= size
    requires forall i :: 0 <= i < |blocks| - 1 ==> |blocks[i]| == size
    ensures Chunks(Concat(blocks), size) == blocks
  {
    if |blocks| > 0 {
      var rest := blocks[1..];
      ChunksOfConcat(rest, size);
      var s := Concat(blocks);
      assert s == blocks[0] + Concat(rest);
      if |blocks| == 1 {
        assert Concat(rest) == [];
        assert s == blocks[0];
      } else {
        assert |Concat(rest)| > 0 by {
          assert Concat(rest) == rest[0] + Concat(rest[1..]);
        }
        assert s[..size] == blocks[0];
        assert s[size..] == Concat(rest);
        assert blocks == [blocks[0]] + rest;
      }
    }
  }
}
