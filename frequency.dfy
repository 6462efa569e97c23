/**
 * English-likeness scoring (`count_freq_score`): every letter (either case)
 * and every space of a text contributes the expected English frequency of
 * that letter or of the space character; every other character contributes
 * nothing. A higher score means "closer to English".
 *
 * The text is taken as its UTF-8 bytes. Letters and space are ASCII, and a
 * non-ASCII character encodes to bytes of 0x80 and above only, so counting
 * bytes gives the same counts as counting characters.
 */
module Frequency {

  /** `LETTER_FREQ`: expected frequency of a..z, then of the space character. */
  const LetterFreq: seq<real> := [
    0.08167, 0.01492, 0.02782, 0.04253, 0.12702, 0.02228, 0.02015,
    0.06094, 0.06966, 0.00153, 0.00772, 0.04025, 0.02406, 0.06749,
    0.07507, 0.01929, 0.00095, 0.05987, 0.06327, 0.09056, 0.02758,
    0.00978, 0.02360, 0.00150, 0.01974, 0.00074, 0.19181
  ]

  /** Number of counters: 26 letters and the space. */
  const Slots: nat := 27

  predicate IsLower(b: bv8) { 0x61 <= b <= 0x7a }
  predicate IsUpper(b: bv8) { 0x41 <= b <= 0x5a }
  predicate IsSpace(b: bv8) { b == 0x20 }

  /** Whether the byte is counted at all: a letter of either case or a space. */
  predicate Counted(b: bv8) { IsLower(b) || IsUpper(b) || IsSpace(b) }

  /** The counter a counted byte increments: its letter's position in the
      alphabet, whatever its case, or 26 for the space. */
  function Slot(b: bv8): (s: nat)
    requires Counted(b)
    ensures s < Slots
    ensures IsSpace(b) <==> s == 26
  {
    if IsLower(b) then (b - 0x61) as nat
    else if IsUpper(b) then (b - 0x41) as nat
    else 26
  }

  /** What one byte adds to the score. */
  function ByteWeight(b: bv8): real
  {
    if Counted(b) then LetterFreq[Slot(b)] else 0.0
  }

  /** The counters after one more byte has been seen. */
  function Tally(counts: seq<nat>, b: bv8): seq<nat>
    requires |counts| == Slots
  {
    if Counted(b) then counts[Slot(b) := counts[Slot(b)] + 1] else counts
  }

  /** The counters after the whole text has been seen, left to right. */
  function Counts(text: seq<bv8>): (c: seq<nat>)
    ensures |c| == Slots
  {
    if |text| == 0 then seq(Slots, _ => 0)
    else Tally(Counts(text[..|text| - 1]), text[|text| - 1])
  }

  /** The first `n` terms of the sum of the counters weighted by `weights`. */
  function Dot(counts: seq<nat>, weights: seq<real>, n: nat): real
    requires n <= |counts| && n <= |weights|
  {
    if n == 0 then 0.0 else Dot(counts, weights, n - 1) + counts[n - 1] as real * weights[n - 1]
  }

  /** The score of a text: every counter weighted by its frequency. */
  function Score(text: seq<bv8>): real
  {
    Dot(Counts(text), LetterFreq, Slots)
  }

  /** `count_freq_score`: count into a fresh table of 27 counters, then sum
      the weighted counters. */
  method CountFreqScore(text: seq<bv8>) returns (score: real)
    ensures score == Score(text)
  {
    var counts := new nat[Slots](_ => 0);
    assert counts[..] == Counts(text[..0]);
    for j := 0 to |text|
      invariant counts[..] == Counts(text[..j])
    {
      var c := text[j];
      assert text[..j + 1][..j] == text[..j];
      assert Counts(text[..j + 1]) == Tally(counts[..], c);
      if Counted(c) {
        var s := Slot(c);
        counts[s] := counts[s] + 1;
      }
    }
    assert text[..|text|] == text;
    score := WeightedSum(counts[..], LetterFreq);
  }

  /** The scoring loop of `count_freq_score`: each counter times the weight
      of its slot, summed. */
  method WeightedSum(counts: seq<nat>, weights: seq<real>) returns (sum: real)
    requires |counts| == |weights|
    ensures sum == Dot(counts, weights, |counts|)
  {
    sum := 0.0;
    for i := 0 to |counts|
      invariant sum == Dot(counts, weights, i)
    {
      sum := sum + counts[i] as real * weights[i];
    }
  }

  /** Adding one to counter `s` adds that counter's weight to the sum,
      when the counter is among the first `n`. */
  lemma {:induction false} DotIncrement(counts: seq<nat>, weights: seq<real>, s: nat, n: nat)
    requires n <= |counts| == |weights| && s < |counts|
    ensures Dot(counts[s := counts[s] + 1], weights, n)
         == Dot(counts, weights, n) + (if s < n then weights[s] else 0.0)
  {
    if n > 0 {
      DotIncrement(counts, weights, s, n - 1);
      var bumped := counts[s := counts[s] + 1];
      var f := weights[n - 1];
      if n - 1 == s {
        assert bumped[n - 1] as real * f == counts[n - 1] as real * f + f;
      } else {
        assert bumped[n - 1] == counts[n - 1];
      }
    }
  }

  /** The score grows by the weight of each byte appended to the text. */
  lemma ScoreSnoc(text: seq<bv8>, b: bv8)
    ensures Score(text + [b]) == Score(text) + ByteWeight(b)
  {
    assert (text + [b])[..|text|] == text;
    if Counted(b) {
      DotIncrement(Counts(text), LetterFreq, Slot(b), Slots);
    }
  }

  /** The score is additive: the score of a concatenation is the sum of the
      scores of its parts. */
  lemma {:induction false} ScoreConcat(a: seq<bv8>, b: seq<bv8>)
    ensures Score(a + b) == Score(a) + Score(b)
    decreases |b|
  {
    if |b| == 0 {
      assert a + b == a;
      assert Counts(b) == seq(Slots, _ => 0);
      DotZero(LetterFreq, Slots);
    } else {
      var b' := b[..|b| - 1];
      var x := b[|b| - 1];
      ScoreConcat(a, b');
      assert a + b == (a + b') + [x];
      assert b == b' + [x];
      ScoreSnoc(a + b', x);
      ScoreSnoc(b', x);
    }
  }

  lemma {:induction false} DotZero(weights: seq<real>, n: nat)
    requires n <= Slots && n <= |weights|
    ensures Dot(seq(Slots, _ => 0), weights, n) == 0.0
  {
    if n > 0 {
      DotZero(weights, n - 1);
    }
  }

  /** Every counted byte has a positive weight; every other byte none. */
  lemma WeightPositive(b: bv8)
    ensures ByteWeight(b) >= 0.0
    ensures ByteWeight(b) > 0.0 <==> Counted(b)
  {
    if Counted(b) {
      var s := Slot(b);
      assert forall i :: 0 <= i < Slots ==> LetterFreq[i] > 0.0;
    }
  }

  /** The score is the sum of the weights of the bytes of the text, so it
      never falls below zero, and it is zero exactly when the text holds no
      letter and no space. */
  lemma {:induction false} ScoreSign(text: seq<bv8>)
    ensures Score(text) >= 0.0
    ensures Score(text) == 0.0 <==> forall i :: 0 <= i < |text| ==> !Counted(text[i])
  {
    if |text| == 0 {
      DotZero(LetterFreq, Slots);
    } else {
      var t := text[..|text| - 1];
      var x := text[|text| - 1];
      assert text == t + [x];
      ScoreSign(t);
      ScoreSnoc(t, x);
      WeightPositive(x);
      assert forall i :: 0 <= i < |t| ==> text[i] == t[i];
    }
  }

  /** Lower-case an ASCII letter; leave every other byte alone. */
  function FoldCase(b: bv8): bv8
  {
    if IsUpper(b) then b + 0x20 else b
  }

  lemma FoldCaseWeight(b: bv8)
    ensures ByteWeight(FoldCase(b)) == ByteWeight(b)
  {
  }

  /** The score ignores letter case: two texts that agree byte by byte up to
      the case of letters have the same score. */
  lemma {:induction false} ScoreIgnoresCase(a: seq<bv8>, b: seq<bv8>)
    requires |a| == |b|
    requires forall i :: 0 <= i < |a| ==> FoldCase(a[i]) == FoldCase(b[i])
    ensures Score(a) == Score(b)
  {
    if |a| == 0 {
      assert a == b;
    } else {
      var n := |a| - 1;
      assert a == a[..n] + [a[n]];
      assert b == b[..n] + [b[n]];
      ScoreIgnoresCase(a[..n], b[..n]);
      ScoreSnoc(a[..n], a[n]);
      ScoreSnoc(b[..n], b[n]);
      FoldCaseWeight(a[n]);
      FoldCaseWeight(b[n]);
    }
  }
}
