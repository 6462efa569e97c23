/**
 * Breaking a single-byte XOR cipher (`break_single_char_xor`): try every
 * key byte 0..255, score each decryption for English-likeness, and keep the
 * first key whose score beats everything seen before, starting from a
 * candidate of score zero.
 */
module SingleByteXor {
  import opened Frequency

  /** XOR every byte of `s` with the key byte `k`. */
  function SingleXor(s: seq<bv8>, k: bv8): (r: seq<bv8>)
    ensures |r| == |s|
    ensures forall i :: 0 <= i < |s| ==> r[i] == s[i] ^ k
  {
    seq(|s|, i requires 0 <= i < |s| => s[i] ^ k)
  }

  /** Decrypting with the key that encrypted gives back the plaintext. */
  lemma SingleXorInvolution(s: seq<bv8>, k: bv8)
    ensures SingleXor(SingleXor(s, k), k) == s
  {
    var r := SingleXor(SingleXor(s, k), k);
    assert forall i :: 0 <= i < |s| ==> r[i] == s[i];
  }

  /** The tuple `(score, key, plaintext)` the search keeps. */
  datatype Candidate = Candidate(score: real, key: bv8, text: seq<bv8>)

  /** The candidate the search starts from. */
  const Initial := Candidate(0.0, 0, [])

  /** The decryption under key `k` together with its score. */
  function Trial(bytes: seq<bv8>, k: nat): (c: Candidate)
    requires k < 256
    ensures c.text == SingleXor(bytes, k as bv8)
  {
    var text := SingleXor(bytes, k as bv8);
    Candidate(Score(text), k as bv8, text)
  }

  /** The score of the decryption under key `k`. */
  function TrialScore(bytes: seq<bv8>, k: nat): real
    requires k < 256
  {
    Trial(bytes, k).score
  }

  /** The best candidate after the keys `0 .. n-1` have been tried: a key
      replaces the current best only when its score is strictly higher. */
  function BestUpTo(bytes: seq<bv8>, n: nat): Candidate
    requires n <= 256
  {
    if n == 0 then Initial
    else
      var best := BestUpTo(bytes, n - 1);
      if TrialScore(bytes, n - 1) > best.score then Trial(bytes, n - 1) else best
  }

  /** What the search promises, stated without the search: no key scores
      higher than the result; a result of score zero is the starting
      candidate; a result of positive score is the decryption under the
      smallest key reaching that score. */
  ghost predicate IsBest(bytes: seq<bv8>, c: Candidate, n: nat)
    requires n <= 256
  {
    && (forall k :: 0 <= k < n ==> TrialScore(bytes, k) <= c.score)
    && (c.score <= 0.0 ==> c == Initial)
    && (c.score > 0.0 ==>
          exists k :: 0 <= k < n && c == Trial(bytes, k) &&
            forall j :: 0 <= j < k ==> TrialScore(bytes, j) < c.score)
  }

  /** The left-to-right search meets the declarative description. */
  lemma {:induction false} BestUpToIsBest(bytes: seq<bv8>, n: nat)
    requires n <= 256
    ensures IsBest(bytes, BestUpTo(bytes, n), n)
  {
    if n > 0 {
      BestUpToIsBest(bytes, n - 1);
      var prev := BestUpTo(bytes, n - 1);
      var t := Trial(bytes, n - 1);
      ScoreSign(t.text);
      if t.score > prev.score {
        assert forall j :: 0 <= j < n - 1 ==> TrialScore(bytes, j) < t.score;
      }
    }
  }

  /** At most one candidate meets the description, so it pins the result
      down completely. */
  lemma IsBestUnique(bytes: seq<bv8>, c: Candidate, d: Candidate, n: nat)
    requires n <= 256
    requires IsBest(bytes, c, n) && IsBest(bytes, d, n)
    ensures c == d
  {
    if c.score > 0.0 {
      var kc :| 0 <= kc < n && c == Trial(bytes, kc) &&
        forall j :: 0 <= j < kc ==> TrialScore(bytes, j) < c.score;
      assert TrialScore(bytes, kc) <= d.score;
      var kd :| 0 <= kd < n && d == Trial(bytes, kd) &&
        forall j :: 0 <= j < kd ==> TrialScore(bytes, j) < d.score;
      assert TrialScore(bytes, kd) <= c.score;
      if kc != kd {
        assert false;
      }
    }
    if d.score > 0.0 {
      var kd :| 0 <= kd < n && d == Trial(bytes, kd);
      assert TrialScore(bytes, kd) <= c.score;
    }
  }

  /** The score kept with the best candidate is the score of the decryption
      under its key. */
  lemma BestScoreAttained(bytes: seq<bv8>)
    ensures BestUpTo(bytes, 256).score == Score(SingleXor(bytes, BestUpTo(bytes, 256).key))
  {
    var best := BestUpTo(bytes, 256);
    BestUpToIsBest(bytes, 256);
    if best.score > 0.0 {
      var k :| 0 <= k < 256 && best == Trial(bytes, k);
    } else {
      assert TrialScore(bytes, 0) <= best.score;
      ScoreSign(Trial(bytes, 0).text);
    }
  }

  /** The key returned is a best key: no byte decrypts to text of a higher
      score. */
  lemma BestKeyMaximises(bytes: seq<bv8>, x: bv8)
    ensures Score(SingleXor(bytes, x)) <= Score(SingleXor(bytes, BestUpTo(bytes, 256).key))
  {
    BestUpToIsBest(bytes, 256);
    BestScoreAttained(bytes);
    var n := x as nat;
    assert n as bv8 == x;
    assert TrialScore(bytes, n) <= BestUpTo(bytes, 256).score;
  }

  /** The key that turns the first byte into a space gives a positive
      score. */
  lemma SpaceKeyScores(bytes: seq<bv8>)
    requires |bytes| > 0
    ensures Score(SingleXor(bytes, bytes[0] ^ 0x20)) > 0.0
  {
    var text := SingleXor(bytes, bytes[0] ^ 0x20);
    assert text[0] == bytes[0] ^ (bytes[0] ^ 0x20) == 0x20;
    ScoreSign(text);
  }

  /** Some key turns the first byte into a space, so on non-empty input the
      best score is positive. */
  lemma NonEmptyPositive(bytes: seq<bv8>)
    requires |bytes| > 0
    ensures BestUpTo(bytes, 256).score > 0.0
  {
    SpaceKeyScores(bytes);
    BestKeyMaximises(bytes, bytes[0] ^ 0x20);
    BestScoreAttained(bytes);
  }

  /** The text returned is the decryption under the key returned, on every
      input. */
  lemma BestTextIsDecryption(bytes: seq<bv8>)
    ensures BestUpTo(bytes, 256).text == SingleXor(bytes, BestUpTo(bytes, 256).key)
  {
    if |bytes| == 0 {
      EmptyInputGivesInitial();
    } else {
      NonEmptyPositive(bytes);
      BestUpToIsBest(bytes, 256);
      var k :| 0 <= k < 256 && BestUpTo(bytes, 256) == Trial(bytes, k);
    }
  }

  /** `break_single_char_xor`. */
  method BreakSingleCharXor(bytes: seq<bv8>) returns (best: Candidate)
    ensures best == BestUpTo(bytes, 256)
    ensures IsBest(bytes, best, 256)
    ensures best.text == SingleXor(bytes, best.key)
    ensures best.score == Score(best.text)
  {
    best := Initial;
    for k := 0 to 256
      invariant best == BestUpTo(bytes, k)
    {
      var key := k as bv8;
      var plaintext := SingleXor(bytes, key);
      var score := CountFreqScore(plaintext);
      if score > best.score {
        best := Candidate(score, key, plaintext);
      }
    }
    BestUpToIsBest(bytes, 256);
    BestTextIsDecryption(bytes);
    BestScoreAttained(bytes);
  }

  /** With nothing to decrypt every key scores zero, so the starting
      candidate is returned. */
  lemma EmptyInputGivesInitial()
    ensures BestUpTo([], 256) == Initial
  {
    var best := BestUpTo([], 256);
    BestUpToIsBest([], 256);
    if best.score > 0.0 {
      var k :| 0 <= k < 256 && best == Trial([], k);
      ScoreSign(SingleXor([], k as bv8));
    }
  }
}
