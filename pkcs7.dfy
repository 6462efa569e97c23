/**
 * PKCS#7 padding (`pkcs7_padding`, section 10.3 of RFC 2315): append `p`
 * bytes of value `p`, where `p` is between 1 and the block size and brings
 * the length to a multiple of the block size. A whole block of padding is
 * added when the input is already a multiple.
 */
module Pkcs7 {
  import opened Common

  /** The number of padding bytes for an input of `len` bytes. */
  function PaddingSize(blockSize: nat, len: nat): (p: nat)
    requires 0 < blockSize < 256
    ensures 1 <= p <= blockSize
  {
    blockSize - len % blockSize
  }

  /** `pkcs7_padding`. The block size is a byte; zero makes the Rust code
      divide by zero, so a positive block size is demanded. */
  function Pkcs7Padding(blockSize: nat, input: seq<bv8>): (r: seq<bv8>)
    requires 0 < blockSize < 256
    ensures |r| % blockSize == 0
    ensures |input| < |r| <= |input| + blockSize
    ensures r[..|input|] == input
    ensures forall i :: |input| <= i < |r| ==> r[i] as nat == |r| - |input|
  {
    var p := PaddingSize(blockSize, |input|);
    ByteOfNat(p);
    PaddedLengthMultiple(blockSize, |input|);
    input + seq(p, _ => p as bv8)
  }

  /** A byte holds any value below 256 unchanged. */
  lemma ByteOfNat(n: int)
    requires 0 <= n < 256
    ensures (n as bv8) as int == n
  {
    assert n % 256 == n;
  }

  lemma PaddedLengthMultiple(blockSize: nat, len: nat)
    requires 0 < blockSize < 256
    ensures (len + PaddingSize(blockSize, len)) % blockSize == 0
  {
    var q := len / blockSize;
    assert len == q * blockSize + len % blockSize;
    assert len + PaddingSize(blockSize, len) == (q + 1) * blockSize;
    ModUnique(len + PaddingSize(blockSize, len), blockSize, q + 1, 0);
  }

  /** The padding is the shortest that reaches a multiple of the block
      size: no shorter non-empty padding does. */
  lemma PaddingShortest(blockSize: nat, len: nat, q: nat)
    requires 0 < blockSize < 256
    requires 0 < q < PaddingSize(blockSize, len)
    ensures (len + q) % blockSize != 0
  {
    var rem := len % blockSize;
    assert len == (len / blockSize) * blockSize + rem;
    ModUnique(len + q, blockSize, len / blockSize, rem + q);
  }

  /** Removing PKCS#7 padding: the last byte says how many bytes to drop,
      and all of them must carry that value. */
  function Pkcs7Unpad(padded: seq<bv8>): Option<seq<bv8>>
  {
    if |padded| == 0 then None
    else
      var n := padded[|padded| - 1] as nat;
      if n == 0 || n > |padded| then None
      else if forall i :: |padded| - n <= i < |padded| ==> padded[i] as nat == n
      then Some(padded[..|padded| - n])
      else None
  }

  /** Unpadding what was padded gives back the input. */
  lemma UnpadPad(blockSize: nat, input: seq<bv8>)
    requires 0 < blockSize < 256
    ensures Pkcs7Unpad(Pkcs7Padding(blockSize, input)) == Some(input)
  {
    var r := Pkcs7Padding(blockSize, input);
    assert r[|r| - 1] as nat == |r| - |input|;
  }

  /** The crate's unit tests: "YELLOW SUB" padded to 16 bytes gains six bytes of
      value 6; "YELLOW SUBMARINE" padded to 32 bytes gains sixteen of 16. */
  const YellowSub: seq<bv8> := [0x59, 0x45, 0x4c, 0x4c, 0x4f, 0x57, 0x20, 0x53, 0x55, 0x42]
  const Marine: seq<bv8> := [0x4d, 0x41, 0x52, 0x49, 0x4e, 0x45]

  lemma Pkcs7PaddingExamples()
    ensures Pkcs7Padding(16, YellowSub) == YellowSub + [6, 6, 6, 6, 6, 6]
    ensures Pkcs7Padding(32, YellowSub + Marine)
         == YellowSub + Marine + [16, 16, 16, 16, 16, 16, 16, 16, 16, 16, 16, 16, 16, 16, 16, 16]
  {
    assert PaddingSize(16, |YellowSub|) == 6;
    assert PaddingSize(32, |YellowSub + Marine|) == 16;
  }
}
