/** Burstiness: how much sentence lengths (in words) vary, as the coefficient
    of variation of the word counts, clamped to [0, 1]; and its inverted
    0..100 score. numpy's square root is passed in as `sqrt`, any function
    that returns the non-negative square root of a non-negative real. */
module Burstiness {
  import opened Common
  import opened Text

  /** Value returned when there are fewer than two sentences. */
  const NeutralBurstiness: real := 0.5

  ghost predicate IsSquareRoot(sqrt: real -> real)
  {
    forall x :: 0.0 <= x ==>
      && 0.0 <= sqrt(x)
      && sqrt(x) * sqrt(x) == x
      && (sqrt(x) == 0.0 <==> x == 0.0)
  }

  /** The coefficient of variation std / mean of the counts, 0 when the mean is 0. */
  function CoefficientOfVariation(counts: seq<nat>, sqrt: real -> real): real
    requires counts != []
  {
    var mean := Mean(counts);
    if mean > 0.0 then sqrt(Variance(counts)) / mean else 0.0
  }

  /** calculate_burstiness. */
  function CalculateBurstiness(sentences: seq<string>, sqrt: real -> real): (b: real)
    requires IsSquareRoot(sqrt)
    ensures 0.0 <= b <= 1.0
    ensures |sentences| < 2 ==> b == NeutralBurstiness
  {
    if |sentences| < 2 then NeutralBurstiness
    else Clip(CoefficientOfVariation(WordCounts(sentences), sqrt), 0.0, 1.0)
  }

  /** normalize_burstiness: 100 * (1 - b). */
  function NormalizeBurstiness(b: real): (r: real)
    ensures 0.0 <= b <= 1.0 ==> 0.0 <= r <= 100.0
  {
    100.0 * (1.0 - b)
  }

  /** The normaliser is antitone: more variation, lower AI score. */
  lemma NormalizeBurstinessAntitone(a: real, b: real)
    requires a <= b
    ensures NormalizeBurstiness(a) >= NormalizeBurstiness(b)
  {
  }

  /** When every sentence has the same number of words the population
      standard deviation is 0, and so is the burstiness. */
  lemma UniformLengthsGiveZero(sentences: seq<string>, sqrt: real -> real, c: nat)
    requires IsSquareRoot(sqrt)
    requires |sentences| >= 2
    requires forall i :: 0 <= i < |sentences| ==> |Split(sentences[i])| == c
    ensures CalculateBurstiness(sentences, sqrt) == 0.0
  {
    var counts := WordCounts(sentences);
    ConstantMoments(counts, c);
    assert sqrt(0.0) == 0.0;
    assert Variance(counts) == 0.0;
    assert sqrt(Variance(counts)) == 0.0;
    assert CoefficientOfVariation(counts, sqrt) == 0.0;
  }

  /** When no sentence has a word the mean word count is 0, so the
      coefficient of variation takes its mean-is-zero branch (cv = 0) and the
      burstiness is 0. A corollary of UniformLengthsGiveZero for the count 0,
      stated for the branch in its own right. */
  lemma NoWordsGiveZero(sentences: seq<string>, sqrt: real -> real)
    requires IsSquareRoot(sqrt)
    requires |sentences| >= 2
    requires forall i :: 0 <= i < |sentences| ==> Split(sentences[i]) == []
    ensures CalculateBurstiness(sentences, sqrt) == 0.0
  {
    ConstantMoments(WordCounts(sentences), 0);
  }

  /** Sentences of different word counts give a positive burstiness: varied
      lengths score as more human-like than uniform ones, which score 0. */
  lemma VariedLengthsPositive(sentences: seq<string>, sqrt: real -> real, i: nat, j: nat)
    requires IsSquareRoot(sqrt)
    requires i < |sentences| && j < |sentences|
    requires WordCount(sentences[i]) != WordCount(sentences[j])
    ensures CalculateBurstiness(sentences, sqrt) > 0.0
  {
    var counts := WordCounts(sentences);
    assert counts[i] != counts[j];
    var big := if counts[i] > counts[j] then i else j;
    PositiveMean(counts, big);
    PositiveVariance(counts, i, j);
    var v := Variance(counts);
    assert sqrt(v) > 0.0;
    PositiveQuotient(sqrt(v), Mean(counts));
  }

  /** Burstiness depends only on the multiset of sentence word counts:
      reordering the sentences does not change it. */
  lemma BurstinessDependsOnCountsOnly(s1: seq<string>, s2: seq<string>, sqrt: real -> real)
    requires IsSquareRoot(sqrt)
    requires multiset(WordCounts(s1)) == multiset(WordCounts(s2))
    ensures CalculateBurstiness(s1, sqrt) == CalculateBurstiness(s2, sqrt)
  {
    var c1, c2 := WordCounts(s1), WordCounts(s2);
    assert |c1| == |multiset(c1)| == |multiset(c2)| == |c2|;
    if |s1| >= 2 {
      MomentsPermutation(c1, c2);
    }
  }

  /** In particular a permutation of the sentences has the same burstiness. */
  lemma BurstinessPermutation(s1: seq<string>, s2: seq<string>, sqrt: real -> real)
    requires IsSquareRoot(sqrt)
    requires multiset(s1) == multiset(s2)
    ensures CalculateBurstiness(s1, sqrt) == CalculateBurstiness(s2, sqrt)
  {
    assert |s1| == |multiset(s1)| == |multiset(s2)| == |s2|;
    if |s1| >= 2 {
      var c1, c2 := WordCounts(s1), WordCounts(s2);
      assert c1 == MapSeq(s1, WordCount) && c2 == MapSeq(s2, WordCount);
      var len := x => AsReal(WordCount(x));
      TotalMap(s1, WordCount, AsReal, len);
      TotalMap(s2, WordCount, AsReal, len);
      TotalPermutation(s1, s2, len);
      assert Mean(c1) == Mean(c2);
      var m := Mean(c1);
      var sq := x => Square(x as real - m);
      var dev := x => sq(WordCount(x));
      TotalMap(s1, WordCount, sq, dev);
      TotalMap(s2, WordCount, sq, dev);
      TotalPermutation(s1, s2, dev);
      assert Variance(c1) == Variance(c2);
    }
  }
}
