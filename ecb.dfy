/**
 * Detecting AES in ECB mode (`detect_aes_ecb`): ECB encrypts equal
 * 16-byte plaintext blocks to equal ciphertext blocks, so the number of
 * ciphertext blocks that repeat an earlier one is the evidence. The result
 * is the number of blocks minus the number of distinct blocks.
 */
module Ecb {
  import opened Blocks

  /** The AES block size in bytes. */
  const BlockSize: nat := 16

  /** The set of blocks occurring in a list (the `HashSet` of `detect_aes_ecb`). */
  function Distinct(blocks: seq<seq<bv8>>): set<seq<bv8>>
  {
    set b | b in blocks
  }

  /** A block appended to the list adds itself to the set. */
  lemma DistinctSnoc(blocks: seq<seq<bv8>>, x: seq<bv8>)
    ensures Distinct(blocks + [x]) == Distinct(blocks) + {x}
  {
  }

  /** The number of positions whose block already occurs earlier in the
      list: an independent count of repeated blocks. */
  function Repeats(blocks: seq<seq<bv8>>): nat
  {
    if |blocks| == 0 then 0
    else
      var prefix := blocks[..|blocks| - 1];
      Repeats(prefix) + (if blocks[|blocks| - 1] in prefix then 1 else 0)
  }

  /** The list has exactly as many entries as distinct blocks, plus one for
      each position that repeats an earlier block. */
  lemma {:induction false} DistinctCount(blocks: seq<seq<bv8>>)
    ensures |blocks| == |Distinct(blocks)| + Repeats(blocks)
  {
    if |blocks| > 0 {
      var prefix := blocks[..|blocks| - 1];
      var x := blocks[|blocks| - 1];
      DistinctCount(prefix);
      assert blocks == prefix + [x];
      DistinctSnoc(prefix, x);
    }
  }

  /** `detect_aes_ecb`: the number of 16-byte blocks minus the number of
      distinct ones. */
  function DetectAesEcb(ct: seq<bv8>): (r: nat)
    ensures r == Repeats(Chunks(ct, BlockSize))
  {
    var blocks := Chunks(ct, BlockSize);
    DistinctCount(blocks);
    |blocks| - |Distinct(blocks)|
  }

  /** Whether no block occurs twice. */
  predicate AllDistinct(blocks: seq<seq<bv8>>)
  {
    forall i, j :: 0 <= i < j < |blocks| ==> blocks[i] != blocks[j]
  }

  /** No position repeats an earlier block exactly when all blocks differ. */
  lemma {:induction false} RepeatsZeroIff(blocks: seq<seq<bv8>>)
    ensures Repeats(blocks) == 0 <==> AllDistinct(blocks)
  {
    if |blocks| > 0 {
      var prefix := blocks[..|blocks| - 1];
      var x := blocks[|blocks| - 1];
      RepeatsZeroIff(prefix);
      if Repeats(blocks) == 0 {
        assert x !in prefix;
        forall i, j | 0 <= i < j < |blocks|
          ensures blocks[i] != blocks[j]
        {
          if j < |blocks| - 1 {
            assert blocks[i] == prefix[i] && blocks[j] == prefix[j];
          } else {
            assert blocks[i] == prefix[i];
          }
        }
      } else if x in prefix {
        var i :| 0 <= i < |prefix| && prefix[i] == x;
        assert blocks[i] == blocks[|blocks| - 1];
      } else {
        assert !AllDistinct(prefix);
        var i, j :| 0 <= i < j < |prefix| && prefix[i] == prefix[j];
        assert blocks[i] == blocks[j];
      }
    }
  }

  /** The result is zero exactly when no 16-byte block of the ciphertext
      occurs twice. */
  lemma DetectAesEcbZeroIff(ct: seq<bv8>)
    ensures DetectAesEcb(ct) == 0 <==> AllDistinct(Chunks(ct, BlockSize))
  {
    RepeatsZeroIff(Chunks(ct, BlockSize));
  }

  /** The ciphertext of the crate's unit test, block by block. */
  const Block0: seq<bv8> := [0xd8, 0x80, 0x61, 0x97, 0x40, 0xa8, 0xa1, 0x9b, 0x78, 0x40, 0xa8, 0xa3, 0x1c, 0x81, 0x0a, 0x3d]
  const Block1: seq<bv8> := [0x08, 0x64, 0x9a, 0xf7, 0x0d, 0xc0, 0x6f, 0x4f, 0xd5, 0xd2, 0xd6, 0x9c, 0x74, 0x4c, 0xd2, 0x83]
  const Block2: seq<bv8> := [0xe2, 0xdd, 0x05, 0x2f, 0x6b, 0x64, 0x1d, 0xbf, 0x9d, 0x11, 0xb0, 0x34, 0x85, 0x42, 0xbb, 0x57]
  const Block3: seq<bv8> := [0x08, 0x64, 0x9a, 0xf7, 0x0d, 0xc0, 0x6f, 0x4f, 0xd5, 0xd2, 0xd6, 0x9c, 0x74, 0x4c, 0xd2, 0x83]
  const Block4: seq<bv8> := [0x94, 0x75, 0xc9, 0xdf, 0xdb, 0xc1, 0xd4, 0x65, 0x97, 0x94, 0x9d, 0x9c, 0x7e, 0x82, 0xbf, 0x5a]
  const Block5: seq<bv8> := [0x08, 0x64, 0x9a, 0xf7, 0x0d, 0xc0, 0x6f, 0x4f, 0xd5, 0xd2, 0xd6, 0x9c, 0x74, 0x4c, 0xd2, 0x83]
  const Block6: seq<bv8> := [0x97, 0xa9, 0x3e, 0xab, 0x8d, 0x6a, 0xec, 0xd5, 0x66, 0x48, 0x91, 0x54, 0x78, 0x9a, 0x6b, 0x03]
  const Block7: seq<bv8> := [0x08, 0x64, 0x9a, 0xf7, 0x0d, 0xc0, 0x6f, 0x4f, 0xd5, 0xd2, 0xd6, 0x9c, 0x74, 0x4c, 0xd2, 0x83]
  const Block8: seq<bv8> := [0xd4, 0x03, 0x18, 0x0c, 0x98, 0xc8, 0xf6, 0xdb, 0x1f, 0x2a, 0x3f, 0x9c, 0x40, 0x40, 0xde, 0xb0]
  const Block9: seq<bv8> := [0xab, 0x51, 0xb2, 0x99, 0x33, 0xf2, 0xc1, 0x23, 0xc5, 0x83, 0x86, 0xb0, 0x6f, 0xba, 0x18, 0x6a]

  const TestBlocks: seq<seq<bv8>> :=
    [Block0, Block1, Block2, Block3, Block4, Block5, Block6, Block7, Block8, Block9]

  /** The 160-byte ciphertext of the test: its ten blocks end to end. */
  const TestCiphertext: seq<bv8> := Concat(TestBlocks)

  lemma TestChunks()
    ensures Chunks(TestCiphertext, BlockSize) == TestBlocks
  {
    assert forall i :: 0 <= i < |TestBlocks| ==> |TestBlocks[i]| == BlockSize;
    ChunksOfConcat(TestBlocks, BlockSize);
  }

  /** Of the first five blocks only block 3 repeats an earlier one (block 1). */
  lemma TestRepeatsFirstFive()
    ensures Repeats(TestBlocks[..5]) == 1
  {
    var b := TestBlocks;
    assert b[..1] == [Block0];
    assert b[..2] == b[..1] + [Block1];
    assert b[..3] == b[..2] + [Block2];
    assert b[..4] == b[..3] + [Block3];
    assert b[..5] == b[..4] + [Block4];
    assert Block1 != Block0 && Block2[0] == 0xe2;
    assert Repeats(b[..1]) == 0;
    assert Repeats(b[..2]) == 0;
    assert Repeats(b[..3]) == 0;
    assert Block3 == Block1;
    assert Repeats(b[..4]) == 1;
  }

  /** Blocks 3, 5 and 7 repeat block 1; the others are new. */
  lemma TestRepeats()
    ensures Repeats(TestBlocks) == 3
  {
    var b := TestBlocks;
    TestRepeatsFirstFive();
    assert b[..6] == b[..5] + [Block5];
    assert b[..7] == b[..6] + [Block6];
    assert b[..8] == b[..7] + [Block7];
    assert b[..9] == b[..8] + [Block8];
    assert b[..10] == b;
    assert Block5 == Block1;
    assert Repeats(b[..6]) == 2;
    assert Repeats(b[..7]) == 2;
    assert Block7 == Block1;
    assert Repeats(b[..8]) == 3;
    assert Repeats(b[..9]) == 3;
  }

  /** The crate's unit test: the ciphertext has three repeated blocks. */
  lemma DetectAesEcbExample()
    ensures DetectAesEcb(TestCiphertext) == 3
  {
    TestChunks();
    TestRepeats();
  }
}
