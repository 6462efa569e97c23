/**
 * Repeating-key XOR and the attack on it (`repeat_key`, `transpose_blocks`,
 * `break_repeating_key_xor`): cut the ciphertext into blocks of the guessed
 * key size, transpose them so that column `c` holds every byte encrypted
 * with key byte `c`, break each column as a single-byte XOR, and decrypt
 * with the key so found.
 */
module RepeatingKeyXor {
  import opened Common
  import opened Xor
  import opened Blocks
  import opened Frequency
  import opened SingleByteXor

  /** `repeat_key`: the key's characters repeated cyclically until `size`
      of them have been taken; nothing when the key is empty. The key is
      taken as a sequence of characters (a byte per character for ASCII). */
  function RepeatKey<T>(size: nat, key: seq<T>): (r: seq<T>)
    ensures |key| == 0 ==> r == []
    ensures |key| > 0 ==> |r| == size
    decreases size
  {
    if |key| == 0 then []
    else if size <= |key| then key[..size]
    else key + RepeatKey(size - |key|, key)
  }

  /** Position `i` of the repeated key holds key character `i mod |key|`. */
  lemma {:induction false} RepeatKeyAt<T>(size: nat, key: seq<T>, i: nat)
    requires |key| > 0 && i < size
    ensures RepeatKey(size, key)[i] == key[i % |key|]
    decreases size
  {
    var n := |key|;
    if i < n {
      ModUnique(i, n, 0, i);
    } else {
      RepeatKeyAt(size - n, key, i - n);
      ModUnique(i, n, (i - n) / n + 1, (i - n) % n);
    }
  }

  /** Column `c` of a list of blocks: byte `c` of every block long enough
      to have one, in block order. */
  function Column(blocks: seq<seq<bv8>>, c: nat): seq<bv8>
  {
    if |blocks| == 0 then []
    else (if c < |blocks[0]| then [blocks[0][c]] else []) + Column(blocks[1..], c)
  }

  lemma {:induction false} ColumnConcat(a: seq<seq<bv8>>, b: seq<seq<bv8>>, c: nat)
    ensures Column(a + b, c) == Column(a, c) + Column(b, c)
  {
    if |a| == 0 {
      assert a + b == b;
    } else {
      var head := if c < |a[0]| then [a[0][c]] else [];
      assert (a + b)[0] == a[0];
      assert (a + b)[1..] == a[1..] + b;
      assert Column(a + b, c) == head + Column(a[1..] + b, c);
      ColumnConcat(a[1..], b, c);
      assert Column(a, c) == head + Column(a[1..], c);
      assert head + (Column(a[1..], c) + Column(b, c)) == (head + Column(a[1..], c)) + Column(b, c);
    }
  }

  /** A block appended to the list adds its byte `c`, if it has one, to
      the end of column `c`. */
  lemma ColumnSnoc(blocks: seq<seq<bv8>>, x: seq<bv8>)
    ensures forall c: nat :: Column(blocks + [x], c)
                          == Column(blocks, c) + (if c < |x| then [x[c]] else [])
  {
    forall c: nat
      ensures Column(blocks + [x], c) == Column(blocks, c) + (if c < |x| then [x[c]] else [])
    {
      ColumnConcat(blocks, [x], c);
      assert Column([x], c) == (if c < |x| then [x[c]] else []) + Column([], c);
    }
  }

  /** The inner loop of `transpose_blocks`: byte `i` of the block is
      appended to column `i`. */
  method PushBytes(columns: array<seq<bv8>>, block: seq<bv8>)
    requires |block| <= columns.Length
    modifies columns
    ensures forall c :: 0 <= c < columns.Length ==>
              columns[c] == old(columns[c]) + (if c < |block| then [block[c]] else [])
  {
    for i := 0 to |block|
      invariant forall c :: 0 <= c < i ==> columns[c] == old(columns[c]) + [block[c]]
      invariant forall c :: i <= c < columns.Length ==> columns[c] == old(columns[c])
    {
      columns[i] := columns[i] + [block[i]];
    }
  }

  /** `transpose_blocks`: one growing column per byte of the first block;
      every byte of every block is pushed onto the column of its position.
      No blocks at all, or a block longer than the first, is a panic there,
      so both are excluded here. */
  method TransposeBlocks(blocks: seq<seq<bv8>>) returns (transposed: seq<seq<bv8>>)
    requires |blocks| > 0
    requires forall i :: 0 <= i < |blocks| ==> |blocks[i]| <= |blocks[0]|
    ensures |transposed| == |blocks[0]|
    ensures forall c :: 0 <= c < |transposed| ==> transposed[c] == Column(blocks, c)
    ensures transposed == Transposed(blocks)
  {
    var columns := new seq<bv8>[|blocks[0]|](_ => []);
    for b := 0 to |blocks|
      invariant forall c :: 0 <= c < columns.Length ==> columns[c] == Column(blocks[..b], c)
    {
      var block := blocks[b];
      PushBytes(columns, block);
      ColumnSnoc(blocks[..b], block);
      assert blocks[..b + 1] == blocks[..b] + [block];
    }
    assert blocks[..|blocks|] == blocks;
    transposed := columns[..];
  }

  /** The transposition as a value: one column per byte of the first block. */
  function Transposed(blocks: seq<seq<bv8>>): (t: seq<seq<bv8>>)
    requires |blocks| > 0
    ensures |t| == |blocks[0]|
  {
    seq(|blocks[0]|, c requires 0 <= c => Column(blocks, c))
  }

  /** In a rectangle, column `c` holds byte `c` of every block. */
  lemma {:induction false} ColumnOfRectangle(blocks: seq<seq<bv8>>, w: nat, c: nat)
    requires Rectangular(blocks, w) && c < w
    ensures |Column(blocks, c)| == |blocks|
    ensures forall t :: 0 <= t < |blocks| ==> Column(blocks, c)[t] == blocks[t][c]
  {
    if |blocks| > 0 {
      ColumnOfRectangle(blocks[1..], w, c);
    }
  }

  /** Transposing a non-empty rectangle twice gives it back. */
  lemma TransposeTwice(blocks: seq<seq<bv8>>, w: nat)
    requires |blocks| > 0 && w > 0 && Rectangular(blocks, w)
    ensures Transposed(Transposed(blocks)) == blocks
  {
    var t := Transposed(blocks);
    forall c | 0 <= c < w
      ensures |t[c]| == |blocks| && forall r :: 0 <= r < |blocks| ==> t[c][r] == blocks[r][c]
    {
      ColumnOfRectangle(blocks, w, c);
    }
    assert Rectangular(t, |blocks|);
    var tt := Transposed(t);
    forall r | 0 <= r < |blocks|
      ensures tt[r] == blocks[r]
    {
      ColumnOfRectangle(t, |blocks|, r);
    }
  }

  /** The bytes at positions `c`, `c + k`, `c + 2k`, ... of `s`. */
  function Stride(s: seq<bv8>, c: nat, k: nat): seq<bv8>
    requires k > 0
    decreases |s| - c
  {
    if c >= |s| then [] else [s[c]] + Stride(s, c + k, k)
  }

  /** Entry `t` of a stride is byte `c + t * k`, and the stride has an entry
      `t` exactly when `s` has a byte there. */
  lemma {:induction false} StrideAt(s: seq<bv8>, c: nat, k: nat, t: nat)
    requires k > 0
    ensures t < |Stride(s, c, k)| <==> c + t * k < |s|
    ensures t < |Stride(s, c, k)| ==> Stride(s, c, k)[t] == s[c + t * k]
    decreases t
  {
    if t > 0 && c < |s| {
      StrideAt(s, c + k, k, t - 1);
      assert c + k + (t - 1) * k == c + t * k;
    }
  }

  lemma {:induction false} StrideShift(s: seq<bv8>, c: nat, k: nat, d: nat)
    requires k > 0 && d <= |s|
    ensures Stride(s, c + d, k) == Stride(s[d..], c, k)
    decreases |s| - c
  {
    if c + d < |s| {
      StrideShift(s, c + k, k, d);
    }
  }

  /** Column `c` of the blocks of size `k` is the stride of `s` starting at
      `c`: the transposition gathers exactly the bytes at positions that
      are `c` modulo `k`. */
  lemma {:induction false} ColumnOfChunks(s: seq<bv8>, k: nat, c: nat)
    requires c < k
    ensures Column(Chunks(s, k), c) == Stride(s, c, k)
    decreases |s|
  {
    if 0 < |s| <= k {
      assert Column(Chunks(s, k), c) == (if c < |s| then [s[c]] else []) + Column([], c);
    } else if |s| > k {
      var rest := s[k..];
      ColumnOfChunks(rest, k, c);
      StrideShift(s, c, k, k);
      assert Chunks(s, k)[1..] == Chunks(rest, k);
    }
  }

  /** Strides of sequences of equal length have equal length. */
  lemma {:induction false} StrideLength(a: seq<bv8>, b: seq<bv8>, c: nat, k: nat)
    requires k > 0 && |a| == |b|
    ensures |Stride(a, c, k)| == |Stride(b, c, k)|
    decreases |a| - c
  {
    if c < |a| {
      StrideLength(a, b, c + k, k);
    }
  }

  /** Entry `t` of the ciphertext's stride `c` is the plaintext's entry
      XORed with key byte `c`. */
  lemma CipherStrideAt(pt: seq<bv8>, key: seq<bv8>, c: nat, t: nat)
    requires c < |key| && t < |Stride(Crypt(pt, key), c, |key|)|
    ensures t < |Stride(pt, c, |key|)|
    ensures Stride(Crypt(pt, key), c, |key|)[t] == Stride(pt, c, |key|)[t] ^ key[c]
  {
    var k := |key|;
    var ct := Crypt(pt, key);
    StrideLength(ct, pt, c, k);
    var j := StridePosition(ct, c, k, t);
    var j' := StridePosition(pt, c, k, t);
    assert j' == j;
    CryptAt(pt, key, j);
  }

  /** The position in `s` of entry `t` of stride `c`: it is `c` modulo `k`. */
  lemma StridePosition(s: seq<bv8>, c: nat, k: nat, t: nat) returns (j: nat)
    requires c < k && t < |Stride(s, c, k)|
    ensures j == c + t * k && j < |s| && j % k == c
    ensures Stride(s, c, k)[t] == s[j]
  {
    StrideAt(s, c, k, t);
    j := c + t * k;
    ModUnique(j, k, t, c);
  }

  /** Each key byte XORs the same stride: the ciphertext's stride `c` is the
      plaintext's stride `c` XORed with key byte `c`, which is why every
      column can be broken as a single-byte XOR. */
  lemma ColumnIsSingleXor(pt: seq<bv8>, key: seq<bv8>, c: nat)
    requires c < |key|
    ensures Stride(Crypt(pt, key), c, |key|) == SingleXor(Stride(pt, c, |key|), key[c])
  {
    var ct := Crypt(pt, key);
    StrideLength(ct, pt, c, |key|);
    forall t | 0 <= t < |Stride(ct, c, |key|)|
      ensures Stride(ct, c, |key|)[t] == Stride(pt, c, |key|)[t] ^ key[c]
    {
      CipherStrideAt(pt, key, c, t);
    }
    StrideSingleXor(ct, pt, key[c], c, |key|);
  }

  lemma StrideSingleXor(ct: seq<bv8>, pt: seq<bv8>, x: bv8, c: nat, k: nat)
    requires k > 0 && |Stride(ct, c, k)| == |Stride(pt, c, k)|
    requires forall t :: 0 <= t < |Stride(ct, c, k)| ==> Stride(ct, c, k)[t] == Stride(pt, c, k)[t] ^ x
    ensures Stride(ct, c, k) == SingleXor(Stride(pt, c, k), x)
  {
  }

  /** Whether every byte is ASCII, so that the bytes are also the UTF-8
      encoding of as many characters. */
  predicate IsAscii(bytes: seq<bv8>)
  {
    forall i :: 0 <= i < |bytes| ==> bytes[i] < 0x80
  }

  /** Repeating-key XOR under a non-empty key; it both encrypts and
      decrypts. */
  function Crypt(text: seq<bv8>, key: seq<bv8>): (r: seq<bv8>)
    requires |key| > 0
    ensures |r| == |text|
  {
    FixedXor(text, RepeatKey(|text|, key))
  }

  /** Byte `j` of the result is byte `j` of the input XORed with key byte
      `j mod |key|`. */
  lemma CryptAt(text: seq<bv8>, key: seq<bv8>, j: nat)
    requires |key| > 0 && j < |text|
    ensures Crypt(text, key)[j] == text[j] ^ key[j % |key|]
  {
    RepeatKeyAt(|text|, key, j);
  }

  /** Decrypting what was encrypted under the same key gives back the
      plaintext. */
  lemma CryptInvolution(text: seq<bv8>, key: seq<bv8>)
    requires |key| > 0
    ensures Crypt(Crypt(text, key), key) == text
  {
    FixedXorInvolution(text, RepeatKey(|text|, key));
  }

  /** The key byte the attack picks for column `c`: the best single-byte
      key for that column. */
  function ColumnKey(ct: seq<bv8>, k: nat, c: nat): bv8
    requires k > 0
  {
    BestUpTo(Stride(ct, c, k), 256).key
  }

  /** The key the attack finds: one byte per column, as many columns as the
      first block has bytes. */
  function FoundKey(ct: seq<bv8>, k: nat): (key: seq<bv8>)
    requires k > 0
    ensures |key| == Min(k, |ct|)
  {
    seq(Min(k, |ct|), c requires 0 <= c => ColumnKey(ct, k, c))
  }

  /** The result of `break_repeating_key_xor`: the key found and the
      plaintext it decrypts to. */
  datatype Broken = Broken(key: seq<bv8>, plaintext: seq<bv8>)

  /** What the attack returns for key size `k`: the found key and the
      decryption under it, or `None` when the key is not ASCII text. */
  function BreakResult(ct: seq<bv8>, k: nat): Option<Broken>
    requires k > 0 && |ct| > 0
  {
    var key := FoundKey(ct, k);
    if IsAscii(key) then Some(Broken(key, Crypt(ct, key))) else None
  }

  /** `break_repeating_key_xor`. The found key is decoded as UTF-8 text and
      repeated character by character to the length of the ciphertext; a key
      byte of 0x80 or above either fails to decode or makes the repeated key
      longer than the ciphertext, and both are panics there, modelled here
      as `None`. No key size, or no ciphertext at all, is a panic too, so
      both are excluded. */
  method BreakRepeatingKeyXor(keysize: nat, ct: seq<bv8>) returns (r: Option<Broken>)
    requires keysize > 0 && |ct| > 0
    ensures r == BreakResult(ct, keysize)
  {
    var keyBytes := FindKey(keysize, ct);
    if !IsAscii(keyBytes) {
      return None;
    }
    var repeatedKey := RepeatKey(|ct|, keyBytes);
    var plaintext := FixedXor(ct, repeatedKey);
    return Some(Broken(keyBytes, plaintext));
  }

  /** The key search of `break_repeating_key_xor`: cut the ciphertext into
      blocks of the key size, transpose them, and break each column as a
      single-byte XOR. */
  method FindKey(keysize: nat, ct: seq<bv8>) returns (keyBytes: seq<bv8>)
    requires keysize > 0 && |ct| > 0
    ensures keyBytes == FoundKey(ct, keysize)
  {
    var cipherBlocks := Chunks(ct, keysize);
    FirstChunkWidth(ct, keysize);
    var transposed := TransposeBlocks(cipherBlocks);
    keyBytes := [];
    for c := 0 to |transposed|
      invariant |keyBytes| == c
      invariant forall i :: 0 <= i < c ==> keyBytes[i] == BestUpTo(transposed[i], 256).key
    {
      var best := BreakSingleCharXor(transposed[c]);
      keyBytes := keyBytes + [best.key];
    }
    forall i | 0 <= i < |keyBytes|
      ensures keyBytes[i] == FoundKey(ct, keysize)[i]
    {
      ColumnOfChunks(ct, keysize, i);
    }
  }

  /** The blocks of size `k` fit the transposition: the first is
      `min(k, |s|)` long and none is longer. */
  lemma FirstChunkWidth(s: seq<bv8>, k: nat)
    requires k > 0 && |s| > 0
    ensures |Chunks(s, k)| > 0
    ensures |Chunks(s, k)[0]| == Min(k, |s|)
    ensures forall i :: 0 <= i < |Chunks(s, k)| ==> |Chunks(s, k)[i]| <= |Chunks(s, k)[0]|
  {
  }

  /** Every byte of the plaintext found is the ciphertext byte XORed with
      the found key's byte at that position modulo the key length. */
  lemma BreakResultBytes(ct: seq<bv8>, k: nat, j: nat)
    requires k > 0 && |ct| > 0
    requires BreakResult(ct, k).Some?
    requires j < |ct|
    ensures |BreakResult(ct, k).value.plaintext| == |ct|
    ensures BreakResult(ct, k).value.plaintext[j] == ct[j] ^ BreakResult(ct, k).value.key[j % Min(k, |ct|)]
  {
    CryptAt(ct, FoundKey(ct, k), j);
  }

  /** No byte decrypts column `c` to text of a higher score than the key
      byte found for that column. */
  lemma FoundKeyMaximises(ct: seq<bv8>, k: nat, c: nat, x: bv8)
    requires k > 0 && c < Min(k, |ct|)
    ensures Score(SingleXor(Stride(ct, c, k), x)) <= Score(SingleXor(Stride(ct, c, k), FoundKey(ct, k)[c]))
  {
    BestKeyMaximises(Stride(ct, c, k), x);
  }

  /** Encrypting again the plaintext found under the key found gives back
      the ciphertext. */
  lemma BreakResultRoundTrip(ct: seq<bv8>, k: nat)
    requires k > 0 && |ct| > 0
    requires BreakResult(ct, k).Some?
    ensures Crypt(BreakResult(ct, k).value.plaintext, BreakResult(ct, k).value.key) == ct
  {
    CryptInvolution(ct, FoundKey(ct, k));
  }

  /** When the plaintext is at least one key long and every column's best
      single-byte key is the true key byte, the attack returns the true key
      and the plaintext, provided the key is ASCII. */
  lemma BreakRecoversPlaintext(pt: seq<bv8>, key: seq<bv8>)
    requires 0 < |key| <= |pt| && IsAscii(key)
    requires forall c :: 0 <= c < |key| ==> ColumnKey(Crypt(pt, key), |key|, c) == key[c]
    ensures BreakResult(Crypt(pt, key), |key|) == Some(Broken(key, pt))
  {
    var ct := Crypt(pt, key);
    assert FoundKey(ct, |key|) == key;
    CryptInvolution(pt, key);
  }
}
