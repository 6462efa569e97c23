/**
 * Byte-wise XOR of two equal-length byte sequences (`fixed_xor`) and the
 * Hamming distance built on it (`edit_distance`): the number of bit
 * positions in which two equal-length byte sequences differ.
 */
module Xor {

  /** `fixed_xor`: element-wise XOR. A length mismatch is a panic in the
      Rust code, so equal length is demanded of the caller. */
  function FixedXor(a: seq<bv8>, b: seq<bv8>): (r: seq<bv8>)
    requires |a| == |b|
    ensures |r| == |a|
    ensures forall i :: 0 <= i < |r| ==> r[i] == a[i] ^ b[i]
  {
    if |a| == 0 then [] else [a[0] ^ b[0]] + FixedXor(a[1..], b[1..])
  }

  /** XORing with the same operand twice gives back the original bytes. */
  lemma FixedXorInvolution(a: seq<bv8>, b: seq<bv8>)
    requires |a| == |b|
    ensures FixedXor(FixedXor(a, b), b) == a
  {
    var r := FixedXor(FixedXor(a, b), b);
    assert forall i :: 0 <= i < |a| ==> r[i] == a[i];
  }

  lemma FixedXorCommutative(a: seq<bv8>, b: seq<bv8>)
    requires |a| == |b|
    ensures FixedXor(a, b) == FixedXor(b, a)
  {
    assert forall i :: 0 <= i < |a| ==> FixedXor(a, b)[i] == FixedXor(b, a)[i];
  }

  /** Bit `i` of `b`, as 0 or 1. */
  function Bit(b: bv8, i: nat): nat
    requires i < 8
  {
    if b & (1 << i) == 0 then 0 else 1
  }

  /** `u8::count_ones`: the number of set bits of a byte. */
  function PopCount(b: bv8): nat
  {
    Bit(b, 0) + Bit(b, 1) + Bit(b, 2) + Bit(b, 3) + Bit(b, 4) + Bit(b, 5) + Bit(b, 6) + Bit(b, 7)
  }

  /** Total number of set bits of a byte sequence. */
  function Weight(s: seq<bv8>): nat
  {
    if |s| == 0 then 0 else PopCount(s[0]) + Weight(s[1..])
  }

  /** `edit_distance`: the summed popcounts of the XOR of the two
      sequences; equal length is demanded, as for `fixed_xor`. */
  function EditDistance(a: seq<bv8>, b: seq<bv8>): nat
    requires |a| == |b|
  {
    Weight(FixedXor(a, b))
  }

  lemma PopCountBound(b: bv8)
    ensures PopCount(b) <= 8
    ensures PopCount(b) == 0 <==> b == 0
  {
  }

  lemma {:induction false} WeightBound(s: seq<bv8>)
    ensures Weight(s) <= 8 * |s|
    ensures Weight(s) == 0 <==> forall i :: 0 <= i < |s| ==> s[i] == 0
  {
    if |s| > 0 {
      PopCountBound(s[0]);
      WeightBound(s[1..]);
      if Weight(s) == 0 {
        assert forall i :: 1 <= i < |s| ==> s[i] == s[1..][i - 1];
      }
    }
  }

  /** Each of the `|a|` byte pairs differs in at most eight bits. */
  lemma EditDistanceBound(a: seq<bv8>, b: seq<bv8>)
    requires |a| == |b|
    ensures EditDistance(a, b) <= 8 * |a|
  {
    WeightBound(FixedXor(a, b));
  }

  /** The distance is zero exactly when the two sequences are equal. */
  lemma EditDistanceZeroIff(a: seq<bv8>, b: seq<bv8>)
    requires |a| == |b|
    ensures EditDistance(a, b) == 0 <==> a == b
  {
    var x := FixedXor(a, b);
    WeightBound(x);
    if EditDistance(a, b) == 0 {
      assert forall i :: 0 <= i < |a| ==> a[i] == b[i] by {
        forall i | 0 <= i < |a| ensures a[i] == b[i] {
          assert x[i] == a[i] ^ b[i] == 0;
        }
      }
    }
  }

  /** The distance does not depend on the order of its operands. */
  lemma EditDistanceSymmetric(a: seq<bv8>, b: seq<bv8>)
    requires |a| == |b|
    ensures EditDistance(a, b) == EditDistance(b, a)
  {
    FixedXorCommutative(a, b);
  }

  /** The distance between the first `n` bytes of `a` and of `b`, summed
      position by position. */
  function PrefixDistance(a: seq<bv8>, b: seq<bv8>, n: nat): nat
    requires n <= |a| == |b|
  {
    if n == 0 then 0 else PrefixDistance(a, b, n - 1) + PopCount(a[n - 1] ^ b[n - 1])
  }

  /** `edit_distance` sums the per-position popcounts over the whole length. */
  lemma {:induction false} EditDistanceByPosition(a: seq<bv8>, b: seq<bv8>, n: nat)
    requires n <= |a| == |b|
    ensures EditDistance(a[..n], b[..n]) == PrefixDistance(a, b, n)
  {
    if n > 0 {
      EditDistanceByPosition(a, b, n - 1);
      EditDistanceSnoc(a[..n], b[..n]);
      assert a[..n][..n - 1] == a[..n - 1];
      assert b[..n][..n - 1] == b[..n - 1];
    }
  }

  lemma EditDistanceIsPrefixDistance(a: seq<bv8>, b: seq<bv8>)
    requires |a| == |b|
    ensures EditDistance(a, b) == PrefixDistance(a, b, |a|)
  {
    EditDistanceByPosition(a, b, |a|);
    assert a[..|a|] == a && b[..|b|] == b;
  }

  /** The weight of a sequence is the weight of all but its last byte plus
      the popcount of that byte. */
  lemma {:induction false} WeightSnoc(s: seq<bv8>)
    requires |s| > 0
    ensures Weight(s) == Weight(s[..|s| - 1]) + PopCount(s[|s| - 1])
  {
    if |s| > 1 {
      WeightSnoc(s[1..]);
      assert s[1..][..|s| - 2] == s[..|s| - 1][1..];
    }
  }

  lemma EditDistanceSnoc(a: seq<bv8>, b: seq<bv8>)
    requires |a| == |b| > 0
    ensures EditDistance(a, b) == EditDistance(a[..|a| - 1], b[..|b| - 1]) + PopCount(a[|a| - 1] ^ b[|b| - 1])
  {
    var x := FixedXor(a, b);
    WeightSnoc(x);
    assert x[..|x| - 1] == FixedXor(a[..|a| - 1], b[..|b| - 1]);
  }

  /** The unit test vector of the crate: "this is a test" and "wokka wokka!!!". */
  const ThisIsATest: seq<bv8> := [0x74, 0x68, 0x69, 0x73, 0x20, 0x69, 0x73, 0x20, 0x61, 0x20, 0x74, 0x65, 0x73, 0x74]
  const WokkaWokka: seq<bv8> := [0x77, 0x6f, 0x6b, 0x6b, 0x61, 0x20, 0x77, 0x6f, 0x6b, 0x6b, 0x61, 0x21, 0x21, 0x21]
  /** The number of bits in which the two differ, position by position. */
  const ExampleBitDiffs: seq<nat> := [2, 3, 1, 2, 2, 3, 1, 5, 2, 4, 3, 2, 3, 4]

  lemma ExampleByteDistanceLow(i: nat)
    requires 0 <= i < 7
    ensures PopCount(ThisIsATest[i] ^ WokkaWokka[i]) == ExampleBitDiffs[i]
  {
    if i == 0 {
      assert ThisIsATest[0] ^ WokkaWokka[0] == 0x03;
    } else if i == 1 {
      assert ThisIsATest[1] ^ WokkaWokka[1] == 0x07;
    } else if i == 2 {
      assert ThisIsATest[2] ^ WokkaWokka[2] == 0x02;
    } else if i == 3 {
      assert ThisIsATest[3] ^ WokkaWokka[3] == 0x18;
    } else if i == 4 {
      assert ThisIsATest[4] ^ WokkaWokka[4] == 0x41;
    } else if i == 5 {
      assert ThisIsATest[5] ^ WokkaWokka[5] == 0x49;
    } else {
      assert ThisIsATest[6] ^ WokkaWokka[6] == 0x04;
    }
  }

  lemma ExampleByteDistanceHigh(i: nat)
    requires 7 <= i < 14
    ensures PopCount(ThisIsATest[i] ^ WokkaWokka[i]) == ExampleBitDiffs[i]
  {
    if i == 7 {
      assert ThisIsATest[7] ^ WokkaWokka[7] == 0x4f;
    } else if i == 8 {
      assert ThisIsATest[8] ^ WokkaWokka[8] == 0x0a;
    } else if i == 9 {
      assert ThisIsATest[9] ^ WokkaWokka[9] == 0x4b;
    } else if i == 10 {
      assert ThisIsATest[10] ^ WokkaWokka[10] == 0x15;
    } else if i == 11 {
      assert ThisIsATest[11] ^ WokkaWokka[11] == 0x44;
    } else if i == 12 {
      assert ThisIsATest[12] ^ WokkaWokka[12] == 0x52;
    } else {
      assert ThisIsATest[13] ^ WokkaWokka[13] == 0x55;
    }
  }

  lemma ExampleByteDistance(i: nat)
    requires i < 14
    ensures PopCount(ThisIsATest[i] ^ WokkaWokka[i]) == ExampleBitDiffs[i]
  {
    if i < 7 {
      ExampleByteDistanceLow(i);
    } else {
      ExampleByteDistanceHigh(i);
    }
  }


  /** The sum of the first `k` entries of `ExampleBitDiffs`. */
  function ExampleBitDiffsUpTo(k: nat): nat
    requires k <= 14
  {
    if k == 0 then 0 else ExampleBitDiffsUpTo(k - 1) + ExampleBitDiffs[k - 1]
  }

  lemma {:induction false} ExamplePrefixDistance(k: nat)
    requires k <= 14
    ensures PrefixDistance(ThisIsATest, WokkaWokka, k) == ExampleBitDiffsUpTo(k)
  {
    if k > 0 {
      ExamplePrefixDistance(k - 1);
      ExampleByteDistance(k - 1);
    }
  }

  lemma ExampleBitDiffsTotal()
    ensures ExampleBitDiffsUpTo(14) == 37
  {
    assert ExampleBitDiffsUpTo(1) == 2;
    assert ExampleBitDiffsUpTo(2) == 5;
    assert ExampleBitDiffsUpTo(3) == 6;
    assert ExampleBitDiffsUpTo(4) == 8;
    assert ExampleBitDiffsUpTo(5) == 10;
    assert ExampleBitDiffsUpTo(6) == 13;
    assert ExampleBitDiffsUpTo(7) == 14;
    assert ExampleBitDiffsUpTo(8) == 19;
    assert ExampleBitDiffsUpTo(9) == 21;
    assert ExampleBitDiffsUpTo(10) == 25;
    assert ExampleBitDiffsUpTo(11) == 28;
    assert ExampleBitDiffsUpTo(12) == 30;
    assert ExampleBitDiffsUpTo(13) == 33;
  }

  /** The unit test vector of the crate: the two strings are 37 bits apart. */
  lemma EditDistanceExample()
    ensures EditDistance(ThisIsATest, WokkaWokka) == 37
  {
    ExamplePrefixDistance(14);
    ExampleBitDiffsTotal();
    EditDistanceIsPrefixDistance(ThisIsATest, WokkaWokka);
  }
}
