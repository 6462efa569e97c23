# Cryptopals utilities, modelled in Dafny

This project models the shared helper crate of a set of Cryptopals solutions
(`utils/src/lib.rs`). It covers these operations:

- byte-wise XOR of equal-length buffers (`fixed_xor`);
- the English-likeness score of a text (`count_freq_score`);
- the single-byte-XOR key search (`break_single_char_xor`);
- repeating-key expansion (`repeat_key`);
- Hamming distance (`edit_distance`);
- the key-size guess of the Vigenère-style attack (`guess_keysize`);
- the block transpose (`transpose_blocks`);
- the full repeating-key XOR break (`break_repeating_key_xor`);
- the ECB repeated-block counter (`detect_aes_ecb`);
- PKCS#7 padding (`pkcs7_padding`).

Modules, one per file:

| file | module | models |
|---|---|---|
| `common.dfy` | `Common` | `Option`, `Min` and arithmetic facts used throughout |
| `blocks.dfy` | `Blocks` | Rust's `slice::chunks` and concatenation of blocks |
| `xor.dfy` | `Xor` | `fixed_xor`, `u8::count_ones`, `edit_distance` and its unit test |
| `frequency.dfy` | `Frequency` | `LETTER_FREQ` and `count_freq_score` |
| `single_byte_xor.dfy` | `SingleByteXor` | `break_single_char_xor` |
| `repeating_key_xor.dfy` | `RepeatingKeyXor` | `repeat_key`, `transpose_blocks`, `break_repeating_key_xor` |
| `key_size.dfy` | `KeySize` | `guess_keysize` |
| `ecb.dfy` | `Ecb` | `detect_aes_ecb` and its unit test |
| `pkcs7.dfy` | `Pkcs7` | `pkcs7_padding` and its unit tests |

Representation choices:

- Bytes are `bv8`, so `^` is the Rust XOR.
- Every `Vec<u8>` or `&[u8]` is a `seq<bv8>`.
- `f64` scores and normalized distances are exact `real`s.
- The Rust functions that are loops over mutable locals are `method`s with loop invariants. Each is proved against a specification function:
  - `count_freq_score` is `CountFreqScore`, proved equal to `Score`;
  - `break_single_char_xor` is `BreakSingleCharXor`, proved equal to `BestUpTo`;
  - `transpose_blocks` is `TransposeBlocks`, proved equal to `Transposed`, whose rows are `Column`s;
  - `guess_keysize` is `GuessKeysize`, proved to return the smallest size of least `NormalizedDistance` (a closed formula over the sampled blocks, not a recursive definition of the loop);
  - `break_repeating_key_xor` is `BreakRepeatingKeyXor`, proved equal to `BreakResult`.
- The iterator chains are functions: `fixed_xor`, `edit_distance`, `repeat_key`, `detect_aes_ecb` and `pkcs7_padding`.
- The properties the code relies on, or that its design promises, are proved about those functions as lemmas.

A panic that the caller can avoid is modelled as a `requires`:

- a length mismatch in `fixed_xor` and `edit_distance`;
- a zero block size in `pkcs7_padding`;
- an empty block list in `transpose_blocks`, and a block longer than the first one;
- a key size of zero in `break_repeating_key_xor` (`chunks(0)` panics), and an empty ciphertext there (no blocks to transpose);
- input too short for `guess_keysize`.

A panic that depends on the data is modelled as a `None` result: a recovered key that is not ASCII text in `break_repeating_key_xor`.

## Model

| member | source | states |
|---|---|---|
| Xor.FixedXor | utils/src/lib.rs:38-48 | the result has the operands' length and byte `i` is `a[i] ^ b[i]`; unequal lengths are excluded, as the Rust code panics on them |
| Xor.FixedXorInvolution | utils/src/lib.rs:38-48 | XORing twice with the same operand gives back the original buffer (what lets decryption reuse `fixed_xor`) |
| Xor.FixedXorCommutative | utils/src/lib.rs:38-48 | the operands of `fixed_xor` can be swapped |
| Xor.PopCount | utils/src/lib.rs:105 | definition of `u8::count_ones`: the sum of the eight bits of the byte |
| Xor.Weight | utils/src/lib.rs:104-106 | definition: the sum of the popcounts of the bytes of a buffer |
| Xor.EditDistance | utils/src/lib.rs:98-107 | definition of `edit_distance`: the weight of `fixed_xor(a, b)`; its properties are the lemmas below |
| Xor.PrefixDistance | utils/src/lib.rs:103-106 | definition of the independent reference: the popcount of `a[i] ^ b[i]` summed over the first `n` positions |
| Xor.PopCountBound | utils/src/lib.rs:105 | `count_ones` of a byte is at most 8 and is 0 only for the zero byte |
| Xor.WeightBound | utils/src/lib.rs:103-106 | the summed popcounts of `n` bytes are at most `8n`, and zero exactly when every byte is zero |
| Xor.EditDistanceBound | utils/src/lib.rs:98-107 | two `n`-byte buffers differ in at most `8n` bits |
| Xor.EditDistanceZeroIff | utils/src/lib.rs:98-107 | the distance is zero if and only if the two buffers are equal |
| Xor.EditDistanceSymmetric | utils/src/lib.rs:98-107 | the distance does not depend on the order of the operands |
| Xor.WeightSnoc | utils/src/lib.rs:103-106 | the popcount sum splits as the sum over all but the last byte plus the last byte's popcount |
| Xor.EditDistanceSnoc | utils/src/lib.rs:98-107 | the distance of two buffers is the distance of their prefixes plus the popcount of the last XORed byte pair |
| Xor.EditDistanceByPosition | utils/src/lib.rs:103-106 | the distance between two prefixes equals the position-by-position sum `PrefixDistance` |
| Xor.EditDistanceIsPrefixDistance | utils/src/lib.rs:98-107 | `edit_distance` equals the per-position reference sum over the whole length |
| Xor.ExampleByteDistance | utils/src/lib.rs:182-188 | the bit differences of each byte pair of "this is a test" and "wokka wokka!!!" |
| Xor.ExamplePrefixDistance | utils/src/lib.rs:182-188 | the running totals of those bit differences |
| Xor.ExampleBitDiffsTotal | utils/src/lib.rs:182-188 | the per-byte differences add up to 37 |
| Xor.EditDistanceExample | utils/src/lib.rs:182-188 | the unit test: the two strings are 37 bits apart |
| Frequency.Counted | utils/src/lib.rs:55-64 | definition: a byte is counted when it is `a`-`z`, `A`-`Z` or the space |
| Frequency.ByteWeight | utils/src/lib.rs:55-67 | definition: a counted byte weighs the `LETTER_FREQ` entry of its slot (the 27 constants of lib.rs:7-12 are copied into `LetterFreq`), every other byte nothing |
| Frequency.Tally | utils/src/lib.rs:55-64 | definition: one step of the counting closure, which bumps the byte's slot when the byte is counted |
| Frequency.Dot | utils/src/lib.rs:66-68 | definition: the first `n` terms of `counts[i] * weights[i]`, summed |
| Frequency.Score | utils/src/lib.rs:50-70 | definition: `Dot` of the final counters with `LETTER_FREQ`; `ScoreSnoc` below shows it is the sum of the weights of the bytes |
| Frequency.Slot | utils/src/lib.rs:55-64 | a counted byte maps to one of the 27 counters, and to counter 26 exactly when it is a space |
| Frequency.Counts | utils/src/lib.rs:52-64 | the table of counters always has 27 entries |
| Frequency.CountFreqScore | utils/src/lib.rs:50-70 | the two loops compute `Score`, the sum of the weights of the text's letters and spaces |
| Frequency.WeightedSum | utils/src/lib.rs:66-68 | the scoring loop returns the weighted sum of all counters |
| Frequency.DotIncrement | utils/src/lib.rs:57-67 | bumping one counter adds exactly that counter's frequency to the weighted sum |
| Frequency.DotZero | utils/src/lib.rs:52-53 | all-zero counters score zero |
| Frequency.ScoreSnoc | utils/src/lib.rs:50-70 | appending a byte adds that byte's weight to the score |
| Frequency.ScoreConcat | utils/src/lib.rs:50-70 | the score of a concatenation is the sum of the scores of its parts |
| Frequency.WeightPositive | utils/src/lib.rs:7-12 | every letter and the space carry a positive frequency, every other byte none |
| Frequency.ScoreSign | utils/src/lib.rs:50-70 | the score is never negative, and it is zero if and only if the text has no letter and no space |
| Frequency.FoldCaseWeight | utils/src/lib.rs:56-61 | an upper-case letter weighs the same as its lower-case form |
| Frequency.ScoreIgnoresCase | utils/src/lib.rs:55-64 | texts that agree up to letter case score the same |
| SingleByteXor.SingleXor | utils/src/lib.rs:77 | each byte of the trial decryption is the ciphertext byte XOR the key byte |
| SingleByteXor.SingleXorInvolution | utils/src/lib.rs:77 | decrypting under the encryption key gives back the plaintext |
| SingleByteXor.Trial | utils/src/lib.rs:77-79 | a trial's text is the decryption under its key |
| SingleByteXor.BestUpTo | utils/src/lib.rs:74-87 | definition of the scan: start from `(0.0, 0, "")`, and let key `n-1` replace the current best only when its score is strictly higher |
| SingleByteXor.IsBest | utils/src/lib.rs:72-88 | definition of the declarative description the scan is proved to meet (see `BestUpToIsBest`) |
| SingleByteXor.BestUpToIsBest | utils/src/lib.rs:74-87 | the scan's result after `n` keys has no lower score than any of those keys; at score zero it is the initial `(0.0, 0, "")`; at positive score it is the earliest key reaching that score |
| SingleByteXor.IsBestUnique | utils/src/lib.rs:74-87 | at most one candidate satisfies that description, so the description fixes the result |
| SingleByteXor.BestScoreAttained | utils/src/lib.rs:81-85 | the score returned is the score of the decryption under the key returned |
| SingleByteXor.BestKeyMaximises | utils/src/lib.rs:72-88 | no key byte decrypts to a higher-scoring text than the key returned |
| SingleByteXor.SpaceKeyScores | utils/src/lib.rs:76-79 | the key that turns the first byte into a space decrypts to a text of positive score |
| SingleByteXor.NonEmptyPositive | utils/src/lib.rs:74-87 | on non-empty input the best score is positive, so the initial candidate is always replaced |
| SingleByteXor.BestTextIsDecryption | utils/src/lib.rs:81-85 | on every input the text returned is the input XOR the key returned |
| SingleByteXor.BreakSingleCharXor | utils/src/lib.rs:72-88 | the loop over keys 0..=255 returns `BestUpTo(bytes, 256)`, which meets `IsBest`; its text is the decryption under its key and its score is that text's score |
| SingleByteXor.EmptyInputGivesInitial | utils/src/lib.rs:74 | on empty input no key beats score zero, so the initial candidate is returned |
| RepeatingKeyXor.RepeatKey | utils/src/lib.rs:90-96 | the expanded key has the requested length, or is empty for an empty key |
| RepeatingKeyXor.RepeatKeyAt | utils/src/lib.rs:90-96 | byte `i` of the expanded key is `key[i mod len(key)]` |
| RepeatingKeyXor.Column | utils/src/lib.rs:133-137 | definition: byte `c` of every block that has one, in block order |
| RepeatingKeyXor.ColumnConcat | utils/src/lib.rs:133-137 | a column of two block lists end to end is the two columns end to end |
| RepeatingKeyXor.ColumnSnoc | utils/src/lib.rs:133-137 | one more block extends column `c` by its byte `c`, when it has one |
| RepeatingKeyXor.PushBytes | utils/src/lib.rs:134-136 | the inner loop appends byte `i` of the block to column `i` and leaves the other columns unchanged |
| RepeatingKeyXor.TransposeBlocks | utils/src/lib.rs:130-139 | there are as many columns as the first block has bytes, and column `c` lists the `c`-th bytes of the blocks, in order; the result equals the functional `Transposed` |
| RepeatingKeyXor.Transposed | utils/src/lib.rs:130-139 | the functional transpose has as many rows as the first block has bytes |
| RepeatingKeyXor.ColumnOfRectangle | utils/src/lib.rs:130-139 | for equal-width blocks, column `c` has one entry per block: the block's byte `c` |
| RepeatingKeyXor.TransposeTwice | utils/src/lib.rs:130-139 | transposing equal-width blocks twice gives the blocks back |
| RepeatingKeyXor.Stride | utils/src/lib.rs:143-144 | definition: every `k`-th byte of the ciphertext from offset `c` |
| RepeatingKeyXor.StrideAt | utils/src/lib.rs:143-144 | the `t`-th byte of the stride from offset `c` is ciphertext byte `c + t*k` |
| RepeatingKeyXor.StrideShift | utils/src/lib.rs:143-144 | dropping a prefix of the ciphertext shifts the stride's offset by that amount |
| RepeatingKeyXor.ColumnOfChunks | utils/src/lib.rs:143-144 | column `c` of the ciphertext cut into `k`-byte chunks is every `k`-th byte from offset `c` |
| RepeatingKeyXor.StrideLength | utils/src/lib.rs:143-144 | strides of equal-length buffers have equal lengths |
| RepeatingKeyXor.CipherStrideAt | utils/src/lib.rs:143-153 | each byte of a ciphertext column is the plaintext byte at that position XOR key byte `c` |
| RepeatingKeyXor.StridePosition | utils/src/lib.rs:143-144 | a stride byte sits at a position congruent to `c` modulo `k` |
| RepeatingKeyXor.ColumnIsSingleXor | utils/src/lib.rs:147-150 | column `c` of a repeating-key ciphertext is a single-byte XOR of the plaintext column under key byte `c` (why the per-column search works) |
| RepeatingKeyXor.StrideSingleXor | utils/src/lib.rs:147-150 | a column whose bytes are plaintext bytes XOR `x` is the single-byte XOR under `x` |
| RepeatingKeyXor.Crypt | utils/src/lib.rs:152-153 | repeating-key XOR keeps the text's length |
| RepeatingKeyXor.CryptAt | utils/src/lib.rs:152-153 | byte `j` of the result is `text[j] ^ key[j mod len(key)]` |
| RepeatingKeyXor.CryptInvolution | utils/src/lib.rs:152-153 | repeating-key XOR under the same key twice gives the text back |
| RepeatingKeyXor.IsAscii | utils/src/lib.rs:152 | definition: every byte is below 0x80, the condition under which the key survives `from_utf8` and `repeat_key` without a panic |
| RepeatingKeyXor.ColumnKey | utils/src/lib.rs:147-149 | definition: the key byte `break_single_char_xor` finds for column `c` |
| RepeatingKeyXor.FoundKey | utils/src/lib.rs:143-150 | the found key has one byte per column: `min(keysize, len)` bytes |
| RepeatingKeyXor.FindKey | utils/src/lib.rs:143-150 | chunking, transposing and breaking each column returns `FoundKey` |
| RepeatingKeyXor.FirstChunkWidth | utils/src/lib.rs:143-144 | the first chunk is `min(keysize, len)` wide and no chunk is wider, so the transpose does not panic |
| RepeatingKeyXor.BreakResult | utils/src/lib.rs:141-156 | definition: the found key and the ciphertext XOR the repeated key, or `None` for a key that is not ASCII |
| RepeatingKeyXor.BreakRepeatingKeyXor | utils/src/lib.rs:141-156 | the method returns `BreakResult`: the found key and the ciphertext XOR the repeated key, or `None` where the Rust code panics on a non-ASCII key |
| RepeatingKeyXor.BreakResultBytes | utils/src/lib.rs:152-153 | plaintext byte `j` is ciphertext byte `j` XOR key byte `j mod keylen`, and the plaintext has the ciphertext's length |
| RepeatingKeyXor.FoundKeyMaximises | utils/src/lib.rs:147-150 | each found key byte gives its column the highest score any byte gives |
| RepeatingKeyXor.BreakResultRoundTrip | utils/src/lib.rs:141-156 | re-encrypting the returned plaintext under the returned key gives the ciphertext back |
| RepeatingKeyXor.BreakRecoversPlaintext | utils/src/lib.rs:141-156 | if the column search recovers every byte of an ASCII key, the attack returns that key and the original plaintext |
| KeySize.Sample | utils/src/lib.rs:114 | at most four blocks are sampled for each key size |
| KeySize.Comparable | utils/src/lib.rs:114-123 | definition of the panic-free condition: at least two sampled blocks, all `k` long |
| KeySize.Usable | utils/src/lib.rs:114-123 | definition of the same condition on the data length: at least `4k` bytes, or exactly `2k` or `3k` |
| KeySize.FullBlocks | utils/src/lib.rs:114 | with at least `m*k` bytes, the first `m` chunks are full |
| KeySize.ExactBlocks | utils/src/lib.rs:114 | exactly `m*k` bytes give exactly `m` chunks |
| KeySize.UsableIff | utils/src/lib.rs:113-123 | the sample for size `k` has at least two blocks, all `k` long, so no panic occurs, if and only if the data has at least `4k` bytes or exactly `2k` or `3k` |
| KeySize.AllUsableIff | utils/src/lib.rs:109-128 | every key size from 2 to 40 avoids the panics if and only if the data has at least 160 bytes |
| KeySize.Distances | utils/src/lib.rs:117-122 | the distance matrix is square, one row per sampled block |
| KeySize.DistancesAt | utils/src/lib.rs:119 | matrix entry `[i][j]` is the edit distance between blocks `i` and `j` |
| KeySize.RowSum | utils/src/lib.rs:118-121 | definition of what the inner loop adds to `total_distance`: the distances from block `i` to each later block |
| KeySize.PairSum | utils/src/lib.rs:115-122 | definition of `total_distance` after the pair loops: the row sums of every block, that is the distance summed over all pairs |
| KeySize.PairCount | utils/src/lib.rs:116-122 | definition of `pairs` after the pair loops: `m - 1 - i` added for each block `i` of `m` |
| KeySize.PairCountClosed | utils/src/lib.rs:117-122 | the pair counter ends at `m(m-1)/2` |
| KeySize.PairCountPositive | utils/src/lib.rs:123 | with two or more blocks there is at least one pair, so the division is defined |
| KeySize.RowSumBound | utils/src/lib.rs:118-121 | a row of entries each at most `b` sums to at most `b` times its length |
| KeySize.PairSumBound | utils/src/lib.rs:117-122 | the pair total is at most the bound times the number of pairs |
| KeySize.BlocksDistance | utils/src/lib.rs:115-123 | definition: the summed pair distances of a list of `k`-byte blocks divided by the number of pairs times `k` |
| KeySize.NormalizedDistance | utils/src/lib.rs:113-123 | definition: `BlocksDistance` of the sample |
| KeySize.BlocksDistanceBound | utils/src/lib.rs:115-123 | the mean distance of any two or more `k`-byte blocks is a bits-per-byte figure between 0 and 8 |
| KeySize.NormalizedDistanceBound | utils/src/lib.rs:123 | the normalized distance is a bits-per-byte figure between 0 and 8 |
| KeySize.RowSumZero | utils/src/lib.rs:118-121 | a row sums to zero if and only if each of its entries is zero |
| KeySize.PairSumZero | utils/src/lib.rs:117-122 | the pair total is zero if and only if every pair's entry is zero |
| KeySize.BlocksDistanceZeroIff | utils/src/lib.rs:115-123 | the mean distance of two or more `k`-byte blocks is zero if and only if all the blocks are equal |
| KeySize.NormalizedDistanceZeroIff | utils/src/lib.rs:113-123 | the normalized distance is zero if and only if all sampled blocks are equal |
| KeySize.SumRow | utils/src/lib.rs:118-121 | the inner loop returns the summed distances from block `i` to the later blocks, and their number |
| KeySize.SumPairDistances | utils/src/lib.rs:115-122 | the pair loops return the total distance over all pairs and the number of pairs |
| KeySize.FirstLeast | utils/src/lib.rs:126-127 | the index returned holds the least distance, and every earlier entry is strictly larger: the first element after a stable sort |
| KeySize.MeasureBlocks | utils/src/lib.rs:115-123 | the body of the size loop, given the sampled blocks, returns their `BlocksDistance` |
| KeySize.CandidateDistances | utils/src/lib.rs:111-125 | entry `i` of the list is key size `i+2` with its normalized distance, for sizes 2 to 40 |
| KeySize.GuessKeysize | utils/src/lib.rs:109-128 | the size returned lies in 2..40, has the least normalized distance, and is the smallest size reaching it |
| KeySize.ShortDataPanics | utils/src/lib.rs:113-119 | on 100 bytes, every size 2..25 can be compared, and size 26 cannot: it samples blocks of 26, 26, 26 and 22 bytes, and the Rust code passes the first and the 22-byte fourth to `edit_distance` (see "Findings") |
| KeySize.FullCount | utils/src/lib.rs:114 | how many of the first four blocks of size `k` are full: at most 4, and that many blocks fit in the data |
| KeySize.FullCountQuotient | utils/src/lib.rs:114 | that count is `min(4, len/k)` |
| KeySize.FullSample | utils/src/lib.rs:114 | corrected sample: the first `FullCount` blocks of `data.chunks(k)`, so exactly `FullCount` of them |
| KeySize.FullSampleRectangular | utils/src/lib.rs:114-119 | every block of the corrected sample is `k` bytes long, so each `edit_distance` call on it is defined |
| KeySize.Rankable | utils/src/lib.rs:113-123 | definition of the corrected condition: at least `2k` bytes |
| KeySize.RankableIff | utils/src/lib.rs:114-119 | the corrected sample has a pair to compare if and only if the data has at least `2k` bytes |
| KeySize.FullSampleAgrees | utils/src/lib.rs:114 | wherever the Rust sample can be compared, the corrected sample is that same sample |
| KeySize.TruncatedDistance | utils/src/lib.rs:113-123 | definition: `BlocksDistance` of the corrected sample |
| KeySize.TruncatedDistanceBound | utils/src/lib.rs:123 | the corrected distance lies between 0 and 8 |
| KeySize.TruncatedDistanceAgrees | utils/src/lib.rs:113-123 | on every size the Rust code can measure, the corrected distance equals `NormalizedDistance` |
| KeySize.CorrectedAgreesOnLongData | utils/src/lib.rs:109-128 | on 160 bytes or more, every size 2..40 can be ranked by both searches, and the two distances agree |
| KeySize.NoneRankableIff | utils/src/lib.rs:111-125 | no size 2..40 can be ranked if and only if the data is shorter than 4 bytes |
| KeySize.MeasureFullBlocks | utils/src/lib.rs:114-123 | the corrected loop body returns `TruncatedDistance(data, k)` |
| KeySize.RankableBelow | utils/src/lib.rs:113 | a size `k` below `n` can be ranked if and only if `k - 2` is less than the count, so the rankable sizes are 2, 3, ... up to a bound |
| KeySize.RankableDistances | utils/src/lib.rs:111-125 | the corrected first loop keeps one entry per rankable size, and entry `i` is size `i+2` with its `TruncatedDistance` |
| KeySize.GuessRankableKeysize | utils/src/lib.rs:109-128 | the corrected guess ranks every size with two full blocks on those blocks: `None` exactly when there is no such size (under 4 bytes), otherwise the smallest such size of least corrected distance among them |
| Ecb.Distinct | utils/src/lib.rs:165 | definition: the set of blocks in the list, what the `HashSet` holds |
| Ecb.Repeats | utils/src/lib.rs:165-166 | definition of the independent count: the blocks equal to an earlier block |
| Ecb.DistinctSnoc | utils/src/lib.rs:165 | adding a block to the list adds it to the set of distinct blocks |
| Ecb.DistinctCount | utils/src/lib.rs:165-166 | the number of blocks is the number of distinct blocks plus the repeats |
| Ecb.DetectAesEcb | utils/src/lib.rs:162-167 | the result is the number of 16-byte chunks that repeat an earlier chunk |
| Ecb.RepeatsZeroIff | utils/src/lib.rs:165-166 | there are no repeats if and only if all blocks are pairwise different |
| Ecb.DetectAesEcbZeroIff | utils/src/lib.rs:162-167 | the detector returns zero if and only if all 16-byte chunks are pairwise different |
| Ecb.TestChunks | utils/src/lib.rs:191-196 | the 160-byte unit-test ciphertext cuts into its ten blocks |
| Ecb.TestRepeatsFirstFive | utils/src/lib.rs:191-196 | the first five test blocks contain one repeat |
| Ecb.TestRepeats | utils/src/lib.rs:191-196 | the ten test blocks contain three repeats |
| Ecb.DetectAesEcbExample | utils/src/lib.rs:191-196 | the unit test: the detector returns 3 on that ciphertext |
| Pkcs7.PaddingSize | utils/src/lib.rs:170 | the padding size lies between 1 and the block size |
| Pkcs7.Pkcs7Padding | utils/src/lib.rs:169-173 | the output is the input followed by `p` bytes of value `p`, with `1 <= p <= block size` and the total a multiple of the block size |
| Pkcs7.PaddedLengthMultiple | utils/src/lib.rs:170 | input length plus padding size is a multiple of the block size |
| Pkcs7.PaddingShortest | utils/src/lib.rs:170 | no shorter non-empty padding reaches a multiple of the block size |
| Pkcs7.Pkcs7Unpad | utils/src/lib.rs:169-173 | definition of the inverse used as a partner: drop as many trailing bytes as the last byte says, when all of them carry that value |
| Pkcs7.UnpadPad | utils/src/lib.rs:169-173 | removing the padding (the last byte gives its length) gives back the input |
| Pkcs7.Pkcs7PaddingExamples | utils/src/lib.rs:199-209 | the unit tests: "YELLOW SUB" to 16 gains six 0x06 bytes; "YELLOW SUBMARINE" to 32 gains sixteen 0x10 bytes |
| Blocks.Chunks | utils/src/lib.rs:143 | chunking yields no chunk exactly when the input is empty |
| Blocks.Concat | utils/src/lib.rs:143 | definition: the blocks laid end to end, the partner of `Chunks` |
| Blocks.ChunkLengths | utils/src/lib.rs:143 | every chunk is non-empty and at most `size` long |
| Blocks.ConcatChunks | utils/src/lib.rs:143 | the chunks, end to end, are the input |
| Blocks.ChunkAt | utils/src/lib.rs:143 | chunk `i` is `s[i*size .. min((i+1)*size, len)]` |
| Blocks.ChunkCount | utils/src/lib.rs:164 | there are `ceil(len/size)` chunks |
| Blocks.ChunkFull | utils/src/lib.rs:164 | every chunk but the last is full |
| Blocks.ChunksOfConcat | utils/src/lib.rs:164 | chunking full blocks that were put end to end gives the blocks back |

## Left out

- Hex and base64 conversion, `bytes_to_plaintext`, file reading and AES-128-ECB decryption (`decrypt_aes_ecb_128`) are not part of this model. They are I/O or calls into foreign libraries (the `hex` and `base64` crates, OpenSSL).
- `f64` arithmetic is modelled as exact real arithmetic. Rounding is not modelled, in two places:
  - in the normalized distance (lib.rs:123), so two key sizes whose distances differ only by rounding may be ordered differently;
  - in the score sum (lib.rs:67), so two keys whose scores differ only by rounding may be ordered differently. That can change which key `break_single_char_xor` keeps, and so the key `FoundKey` recovers.
- The text decoding in `break_single_char_xor` is not modelled: the model scores the XORed bytes, not `String::from_utf8_lossy` of them. Letters and the space are ASCII, and UTF-8 never uses ASCII byte values inside a multi-byte character, so the score is the same. The returned plaintext is kept as bytes, not as the lossily decoded string.
- Xor.EditDistance: the distance is an unbounded natural. The Rust code sums `count_ones` into a `u32` (lib.rs:98, 105-106), which overflows for buffers with more than 2^32 - 1 differing bits; that overflow is not modelled.
- Frequency.CountFreqScore: the `u32` counters are unbounded naturals; overflow after 2^32 occurrences of one letter is not modelled.
- KeySize.GuessKeysize: requires at least 160 bytes of data. `AllUsableIff` proves that this is exactly the condition under which the Rust code avoids every panic (a length mismatch in `edit_distance`, or a NaN in `partial_cmp(...).unwrap()`).
- KeySize.GuessKeysize: the stable `sort_by` followed by `distances[0]` is modelled as a scan for the earliest minimum. That gives the same first element, but the rest of the sorted list is not modelled.
- RepeatingKeyXor.BreakRepeatingKeyXor: returns `None` where the Rust code panics, which is when the recovered key is not ASCII. That covers both the `from_utf8` failure and a multi-byte character making `repeat_key` longer than the ciphertext. The final `String::from_utf8(...).unwrap()` on the plaintext is not modelled, and the plaintext is returned as bytes.
- RepeatingKeyXor.RepeatKey: is generic over the key's elements. It models `chars().cycle().take(n)` for a key of one-byte characters, not the byte length of multi-byte characters.
- Ecb.DetectAesEcb: the `HashSet`'s hashing is not modelled, only the set of distinct blocks it holds.
- Blocks.Chunks: `chunks(0)` panics in Rust and is excluded by `requires size > 0`.

## Findings

The design of the key-size estimate says that a key size whose sample has fewer than two usable blocks must be left out of the ranking. The Rust code ranks every size from 2 to 40. For data under 160 bytes, some size then either passes blocks of unequal length to `edit_distance`, which panics (lib.rs:119), or computes `0/0`, whose NaN makes `partial_cmp(...).unwrap()` panic (lib.rs:123, 126). `GuessKeysize` models the code as written, on the domain where it does not panic (`AllUsableIff`). `GuessRankableKeysize` is the corrected search. It cuts the short last block off each sample, so it compares the first `min(4, len/k)` blocks. It ranks every size that leaves at least two full blocks. On 160 bytes or more it ranks by the same distances as the Rust code (`CorrectedAgreesOnLongData`).

| source | as written | input that shows it | evidently intended | confidence | as-written member | corrected member |
|---|---|---|---|---|---|---|
| utils/src/lib.rs:113-127 | every key size 2..40 is ranked, including sizes whose sample cannot be compared | 100 bytes of data: sizes 2..25 are fine, then size 26 samples blocks of 26, 26, 26 and 22 bytes, and `edit_distance` of the first and the fourth panics | leave the short last block out of each sample and rank every size with at least two full blocks on those; report no size when none qualifies | medium, not executed | KeySize.ShortDataPanics | KeySize.GuessRankableKeysize |
