/** The detector's aggregator: four 0..100 sub-scores combined with the
    configured weights, the threshold decision that turns the combined score
    into a label and a confidence, and the per-sentence scores. The document
    perplexity (a language-model call) and the perplexity variance and its
    score (computed by functions that are not part of this model) are inputs. */
module Scoring {
  import opened Common
  import opened Text
  import opened Perplexity
  import opened Burstiness
  import opened Repetition

  datatype Label = AIGenerated | HumanWritten | Uncertain
  datatype Confidence = High | Medium | Low

  /** The scoring part of the application settings. */
  datatype Settings = Settings(
    aiThreshold: real,
    humanThreshold: real,
    perplexityWeight: real,
    burstinessWeight: real,
    repetitionWeight: real,
    varianceWeight: real)

  /** The defaults of the settings class. */
  const DefaultSettings: Settings := Settings(70.0, 30.0, 0.4, 0.2, 0.2, 0.2)

  /** Scores at or beyond these are decided with high confidence; they are
      fixed in the decision, not configurable. */
  const HighConfidenceAi: real := 85.0
  const HighConfidenceHuman: real := 15.0

  /** The weights are meant to be non-negative and to sum to 1. */
  predicate ValidWeights(s: Settings)
  {
    && 0.0 <= s.perplexityWeight && 0.0 <= s.burstinessWeight
    && 0.0 <= s.repetitionWeight && 0.0 <= s.varianceWeight
    && s.perplexityWeight + s.burstinessWeight + s.repetitionWeight + s.varianceWeight == 1.0
  }

  predicate InPercentRange(x: real)
  {
    0.0 <= x <= 100.0
  }

  /** The defaults are valid weights, with the human threshold below the AI one. */
  lemma DefaultSettingsValid()
    ensures ValidWeights(DefaultSettings)
    ensures DefaultSettings.humanThreshold < DefaultSettings.aiThreshold
  {
  }

  /** The weighted combination of the four sub-scores. */
  function WeightedScore(perplexityScore: real, burstinessScore: real, repetitionScore: real,
                         varianceScore: real, s: Settings): (score: real)
    ensures ValidWeights(s)
            && InPercentRange(perplexityScore) && InPercentRange(burstinessScore)
            && InPercentRange(repetitionScore) && InPercentRange(varianceScore)
            ==> InPercentRange(score)
  {
    var t1 := Weigh(perplexityScore, s.perplexityWeight);
    var t2 := Weigh(burstinessScore, s.burstinessWeight);
    var t3 := Weigh(repetitionScore, s.repetitionWeight);
    var t4 := Weigh(varianceScore, s.varianceWeight);
    if ValidWeights(s) && InPercentRange(perplexityScore) && InPercentRange(burstinessScore)
       && InPercentRange(repetitionScore) && InPercentRange(varianceScore) then
      WeightedTermBounds(perplexityScore, s.perplexityWeight);
      WeightedTermBounds(burstinessScore, s.burstinessWeight);
      WeightedTermBounds(repetitionScore, s.repetitionWeight);
      WeightedTermBounds(varianceScore, s.varianceWeight);
      SumBounds(t1, t2, t3, t4, s);
      t1 + t2 + t3 + t4
    else t1 + t2 + t3 + t4
  }

  /** One term of the weighted sum. */
  function Weigh(subScore: real, weight: real): real
  {
    subScore * weight
  }

  /** A sub-score in [0, 100] times a non-negative weight w lies in [0, 100 w]. */
  lemma WeightedTermBounds(x: real, w: real)
    requires InPercentRange(x) && 0.0 <= w
    ensures 0.0 <= Weigh(x, w) <= 100.0 * w
  {
    assert 100.0 * w - x * w == (100.0 - x) * w;
  }

  lemma SumBounds(t1: real, t2: real, t3: real, t4: real, s: Settings)
    requires ValidWeights(s)
    requires 0.0 <= t1 <= 100.0 * s.perplexityWeight && 0.0 <= t2 <= 100.0 * s.burstinessWeight
    requires 0.0 <= t3 <= 100.0 * s.repetitionWeight && 0.0 <= t4 <= 100.0 * s.varianceWeight
    ensures InPercentRange(t1 + t2 + t3 + t4)
  {
  }

  /** Raising any sub-score never lowers the combined score. */
  lemma WeightedScoreMonotone(p1: real, b1: real, r1: real, v1: real,
                              p2: real, b2: real, r2: real, v2: real, s: Settings)
    requires ValidWeights(s)
    requires p1 <= p2 && b1 <= b2 && r1 <= r2 && v1 <= v2
    ensures WeightedScore(p1, b1, r1, v1, s) <= WeightedScore(p2, b2, r2, v2, s)
  {
    WeightedTermMonotone(p1, p2, s.perplexityWeight);
    WeightedTermMonotone(b1, b2, s.burstinessWeight);
    WeightedTermMonotone(r1, r2, s.repetitionWeight);
    WeightedTermMonotone(v1, v2, s.varianceWeight);
  }

  /** Four equal sub-scores combine to that same score under valid weights. */
  lemma WeightedScoreOfEqual(x: real, s: Settings)
    requires ValidWeights(s)
    ensures WeightedScore(x, x, x, x, s) == x
  {
    var w1, w2, w3, w4 := s.perplexityWeight, s.burstinessWeight, s.repetitionWeight, s.varianceWeight;
    assert Weigh(x, w1) + Weigh(x, w2) + Weigh(x, w3) + Weigh(x, w4) == x * (w1 + w2 + w3 + w4);
  }

  lemma WeightedTermMonotone(x: real, y: real, w: real)
    requires x <= y && 0.0 <= w
    ensures Weigh(x, w) <= Weigh(y, w)
  {
    assert y * w - x * w == (y - x) * w;
  }

  /** The label and confidence of a combined score. */
  datatype Verdict = Verdict(decision: Label, confidence: Confidence)

  /** The threshold decision. */
  function Decide(score: real, s: Settings): (v: Verdict)
    ensures v.decision == AIGenerated <==> score >= s.aiThreshold
    ensures v.decision == HumanWritten <==> score < s.aiThreshold && score <= s.humanThreshold
    ensures v.decision == Uncertain <==> s.humanThreshold < score < s.aiThreshold
    ensures v.confidence == Low <==> v.decision == Uncertain
    ensures v.confidence == High <==>
      (v.decision == AIGenerated && score >= HighConfidenceAi)
      || (v.decision == HumanWritten && score <= HighConfidenceHuman)
  {
    if score >= s.aiThreshold then
      Verdict(AIGenerated, if score >= HighConfidenceAi then High else Medium)
    else if score <= s.humanThreshold then
      Verdict(HumanWritten, if score <= HighConfidenceHuman then High else Medium)
    else
      Verdict(Uncertain, Low)
  }

  /** Labels ordered from most human to most AI-like. */
  function Rank(l: Label): nat
  {
    match l
    case HumanWritten => 0
    case Uncertain => 1
    case AIGenerated => 2
  }

  /** A higher score never gives a more human label, whatever the thresholds. */
  lemma LabelMonotone(a: real, b: real, s: Settings)
    requires a <= b
    ensures Rank(Decide(a, s).decision) <= Rank(Decide(b, s).decision)
  {
  }

  /** With the default thresholds a high-confidence verdict is reached only
      well past the threshold: an AI label is high exactly from 85 on, a
      human label exactly up to 15. */
  lemma DefaultConfidenceBands(score: real)
    ensures Decide(score, DefaultSettings) == Verdict(AIGenerated, High) <==> score >= 85.0
    ensures Decide(score, DefaultSettings) == Verdict(AIGenerated, Medium) <==> 70.0 <= score < 85.0
    ensures Decide(score, DefaultSettings) == Verdict(Uncertain, Low) <==> 30.0 < score < 70.0
    ensures Decide(score, DefaultSettings) == Verdict(HumanWritten, Medium) <==> 15.0 < score <= 30.0
    ensures Decide(score, DefaultSettings) == Verdict(HumanWritten, High) <==> score <= 15.0
  {
  }

  /** The metrics block of the result (before rounding). */
  datatype Metrics = Metrics(
    perplexity: real, perplexityScore: real,
    burstiness: real, burstinessScore: real,
    repetition: real, repetitionScore: real,
    perplexityVariance: real, perplexityVarianceScore: real)

  datatype FinalScore = FinalScore(score: real, decision: Label, confidence: Confidence, metrics: Metrics)

  /** calculate_final_score. `perplexity` is the language model's perplexity
      of the whole text; `variance` and `varianceScore` are the perplexity
      variance and its 0..100 score. */
  function CalculateFinalScore(text: string, sentences: seq<string>, perplexity: real,
                               variance: real, varianceScore: real,
                               sqrt: real -> real, s: Settings): (r: FinalScore)
    requires IsSquareRoot(sqrt)
    ensures InPercentRange(r.metrics.perplexityScore)
    ensures InPercentRange(r.metrics.burstinessScore)
    ensures InPercentRange(r.metrics.repetitionScore)
    ensures 0.0 <= r.metrics.burstiness <= 1.0 && 0.0 <= r.metrics.repetition < 1.0
    ensures r.score == WeightedScore(r.metrics.perplexityScore, r.metrics.burstinessScore,
                                     r.metrics.repetitionScore, varianceScore, s)
    ensures ValidWeights(s) && InPercentRange(varianceScore) ==> InPercentRange(r.score)
    ensures r.decision == AIGenerated <==> r.score >= s.aiThreshold
    ensures r.decision == HumanWritten <==> r.score < s.aiThreshold && r.score <= s.humanThreshold
    ensures r.confidence == Low <==> r.decision == Uncertain
    ensures r.confidence == High <==>
      (r.decision == AIGenerated && r.score >= HighConfidenceAi)
      || (r.decision == HumanWritten && r.score <= HighConfidenceHuman)
  {
    var burstiness := CalculateBurstiness(sentences, sqrt);
    var repetition := RepetitionScore(text);
    var perplexityScore := NormalizePerplexity(perplexity, DefaultMinPpl, DefaultMaxPpl);
    var burstinessScore := NormalizeBurstiness(burstiness);
    var repetitionScore := NormalizeRepetition(repetition);
    var finalScore := WeightedScore(perplexityScore, burstinessScore, repetitionScore, varianceScore, s);
    var verdict := Decide(finalScore, s);
    FinalScore(finalScore, verdict.decision, verdict.confidence,
      Metrics(perplexity, perplexityScore, burstiness, burstinessScore,
              repetition, repetitionScore, variance, varianceScore))
  }

  /** A text whose every word is new and whose sentences all have the same
      length scores no repetition and the highest burstiness score. */
  lemma UniformDistinctTextMetrics(text: string, sentences: seq<string>, perplexity: real,
                                   variance: real, varianceScore: real,
                                   sqrt: real -> real, s: Settings, c: nat)
    requires IsSquareRoot(sqrt)
    requires AllDistinct(Words(text))
    requires |sentences| >= 2
    requires forall i :: 0 <= i < |sentences| ==> |Split(sentences[i])| == c
    ensures CalculateFinalScore(text, sentences, perplexity, variance, varianceScore, sqrt, s).metrics.repetitionScore == 0.0
    ensures CalculateFinalScore(text, sentences, perplexity, variance, varianceScore, sqrt, s).metrics.burstinessScore == 100.0
  {
    DistinctWordsScoreZero(text);
    UniformLengthsGiveZero(sentences, sqrt, c);
  }

  /** One entry of calculate_sentence_scores' result (before rounding). */
  datatype SentenceScore = SentenceScore(text: string, score: real)

  /** calculate_sentence_scores: one entry per sentence the perplexity step
      reports, in its order, scored with the default calibration range. */
  method CalculateSentenceScores(sentences: seq<string>, tokenCount: string -> Option<nat>,
                                 score: string -> Option<real>)
    returns (results: seq<SentenceScore>)
    ensures var reported := ScoredSentences(sentences, tokenCount, score);
      && |results| == |reported|
      && forall i :: 0 <= i < |results| ==>
           && results[i].text == reported[i].text
           && results[i].score == NormalizePerplexity(reported[i].perplexity, DefaultMinPpl, DefaultMaxPpl)
    ensures forall i :: 0 <= i < |results| ==> InPercentRange(results[i].score)
    ensures ScoredTexts(results) == Filter(sentences, x => Scorable(x, tokenCount, score))
  {
    var sentencePerplexities := CalculateSentencePerplexities(sentences, tokenCount, score);
    results := [];
    for i := 0 to |sentencePerplexities|
      invariant |results| == i
      invariant forall j :: 0 <= j < i ==>
        && results[j].text == sentencePerplexities[j].text
        && results[j].score == NormalizePerplexity(sentencePerplexities[j].perplexity, DefaultMinPpl, DefaultMaxPpl)
    {
      var item := sentencePerplexities[i];
      var s := NormalizePerplexity(item.perplexity, DefaultMinPpl, DefaultMaxPpl);
      results := results + [SentenceScore(item.text, s)];
    }
    ScoredSentencesAreScorableSubsequence(sentences, tokenCount, score);
    assert ScoredTexts(results) == Texts(sentencePerplexities);
  }

  function ScoredTexts(results: seq<SentenceScore>): (t: seq<string>)
    ensures |t| == |results|
    ensures forall k :: 0 <= k < |t| ==> t[k] == results[k].text
  {
    seq(|results|, k requires 0 <= k < |results| => results[k].text)
  }
}
