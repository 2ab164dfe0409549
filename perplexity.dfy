/** The perplexity service of the detector: the clamp-and-invert normaliser
    and the per-sentence loop that asks the language model for a perplexity.
    The model itself (GPT-2 through torch) is not part of this model: its
    tokenizer and its scorer are passed in as functions whose `None` stands
    for a call that raised. */
module Perplexity {
  import opened Common

  /** Default calibration range of normalize_perplexity. */
  const DefaultMinPpl: real := 5.0
  const DefaultMaxPpl: real := 100.0

  /** Fewest tokens a sentence needs to be scored. */
  const MinSentenceTokens: nat := 3

  /** normalize_perplexity: clamp into [minPpl, maxPpl], then map linearly so
      that minPpl gives 100 and maxPpl gives 0 (lower perplexity, more AI-like).
      minPpl == maxPpl would divide by zero. */
  function NormalizePerplexity(ppl: real, minPpl: real, maxPpl: real): (r: real)
    requires minPpl < maxPpl
    ensures 0.0 <= r <= 100.0
    ensures ppl <= minPpl ==> r == 100.0
    ensures ppl >= maxPpl ==> r == 0.0
  {
    var p := Clip(ppl, minPpl, maxPpl);
    var frac := (p - minPpl) / (maxPpl - minPpl);
    UnitShare(p - minPpl, maxPpl - minPpl);
    assert frac * (maxPpl - minPpl) == p - minPpl;
    assert ppl >= maxPpl ==> frac == 1.0 by {
      if ppl >= maxPpl {
        CancelFactor(1.0, maxPpl - minPpl);
        assert p - minPpl == 1.0 * (maxPpl - minPpl);
      }
    }
    100.0 * (1.0 - frac)
  }

  /** A higher perplexity never gives a higher score. */
  lemma NormalizePerplexityAntitone(a: real, b: real, minPpl: real, maxPpl: real)
    requires minPpl < maxPpl && a <= b
    ensures NormalizePerplexity(a, minPpl, maxPpl) >= NormalizePerplexity(b, minPpl, maxPpl)
  {
    var pa, pb := Clip(a, minPpl, maxPpl), Clip(b, minPpl, maxPpl);
    var w := maxPpl - minPpl;
    assert pa <= pb;
    assert (pa - minPpl) / w <= (pb - minPpl) / w by {
      assert (pb - minPpl) / w - (pa - minPpl) / w == (pb - pa) / w;
    }
  }

  /** Inside the calibration range the map is strictly decreasing. */
  lemma NormalizePerplexityStrict(a: real, b: real, minPpl: real, maxPpl: real)
    requires minPpl <= a < b <= maxPpl
    ensures NormalizePerplexity(a, minPpl, maxPpl) > NormalizePerplexity(b, minPpl, maxPpl)
  {
    var w := maxPpl - minPpl;
    assert Clip(a, minPpl, maxPpl) == a && Clip(b, minPpl, maxPpl) == b;
    assert (a - minPpl) / w < (b - minPpl) / w by {
      assert (b - minPpl) / w - (a - minPpl) / w == (b - a) / w;
    }
  }

  /** With the default range 5..100: perplexity 10 scores in [80, 100],
      90 in [0, 20] and 50 in [40, 60]. */
  lemma DefaultCalibrationExamples()
    ensures 80.0 <= NormalizePerplexity(10.0, DefaultMinPpl, DefaultMaxPpl) <= 100.0
    ensures 0.0 <= NormalizePerplexity(90.0, DefaultMinPpl, DefaultMaxPpl) <= 20.0
    ensures 40.0 <= NormalizePerplexity(50.0, DefaultMinPpl, DefaultMaxPpl) <= 60.0
  {
    assert NormalizePerplexity(10.0, DefaultMinPpl, DefaultMaxPpl) == 100.0 * (1.0 - 5.0 / 95.0);
    assert NormalizePerplexity(90.0, DefaultMinPpl, DefaultMaxPpl) == 100.0 * (1.0 - 85.0 / 95.0);
    assert NormalizePerplexity(50.0, DefaultMinPpl, DefaultMaxPpl) == 100.0 * (1.0 - 45.0 / 95.0);
  }

  /** One entry of calculate_sentence_perplexities' result. */
  datatype SentencePerplexity = SentencePerplexity(text: string, perplexity: real)

  /** The sentences the loop reports: the tokenizer succeeds with at least
      three tokens and the scorer succeeds. */
  predicate Scorable(sentence: string, tokenCount: string -> Option<nat>, score: string -> Option<real>)
  {
    tokenCount(sentence).Some? && tokenCount(sentence).value >= MinSentenceTokens
    && score(sentence).Some?
  }

  /** What one iteration of the loop appends, if anything. */
  function Assess(sentence: string, tokenCount: string -> Option<nat>, score: string -> Option<real>)
    : Option<SentencePerplexity>
  {
    match tokenCount(sentence)
    case None => None
    case Some(n) =>
      if n < MinSentenceTokens then None
      else match score(sentence)
        case None => None
        case Some(p) => Some(SentencePerplexity(sentence, p))
  }

  /** The list the loop has built after visiting `sentences`. */
  function ScoredSentences(sentences: seq<string>, tokenCount: string -> Option<nat>, score: string -> Option<real>)
    : seq<SentencePerplexity>
  {
    if sentences == [] then []
    else
      var done := ScoredSentences(sentences[..|sentences| - 1], tokenCount, score);
      match Assess(sentences[|sentences| - 1], tokenCount, score)
      case None => done
      case Some(e) => done + [e]
  }

  /** calculate_sentence_perplexities: a too-short sentence, or one whose
      tokenization or scoring raises, is skipped; every other sentence is
      appended with its perplexity. */
  method CalculateSentencePerplexities(sentences: seq<string>, tokenCount: string -> Option<nat>, score: string -> Option<real>)
    returns (results: seq<SentencePerplexity>)
    ensures results == ScoredSentences(sentences, tokenCount, score)
  {
    results := [];
    for i := 0 to |sentences|
      invariant results == ScoredSentences(sentences[..i], tokenCount, score)
    {
      var sentence := sentences[i];
      assert sentences[..i + 1][..i] == sentences[..i];
      match tokenCount(sentence)
      case None =>
        continue;
      case Some(n) =>
        if n < MinSentenceTokens {
          continue;
        }
        match score(sentence)
        case None =>
          continue;
        case Some(p) =>
          results := results + [SentencePerplexity(sentence, p)];
    }
    assert sentences[..|sentences|] == sentences;
  }

  function Texts(entries: seq<SentencePerplexity>): (t: seq<string>)
    ensures |t| == |entries|
    ensures forall k :: 0 <= k < |t| ==> t[k] == entries[k].text
  {
    seq(|entries|, k requires 0 <= k < |entries| => entries[k].text)
  }

  /** The reported texts are exactly the scorable input sentences, in input
      order: an order-preserving subsequence of the input. */
  lemma {:induction false} ScoredSentencesAreScorableSubsequence(
    sentences: seq<string>, tokenCount: string -> Option<nat>, score: string -> Option<real>)
    ensures Texts(ScoredSentences(sentences, tokenCount, score))
         == Filter(sentences, s => Scorable(s, tokenCount, score))
  {
    var p := s => Scorable(s, tokenCount, score);
    if sentences != [] {
      var n := |sentences| - 1;
      var init, last := sentences[..n], sentences[n];
      ScoredSentencesAreScorableSubsequence(init, tokenCount, score);
      assert sentences == init + [last];
      FilterAppend(init, [last], p);
      assert Filter([last], p) == (if p(last) then [last] else []) + Filter([last][1..], p);
      var done := ScoredSentences(init, tokenCount, score);
      match Assess(last, tokenCount, score)
      case None =>
      case Some(e) =>
        assert Texts(done + [e]) == Texts(done) + [e.text];
    }
  }

  /** Each reported perplexity is the scorer's value for that sentence's text. */
  lemma {:induction false} ScoredSentencesCarryScore(
    sentences: seq<string>, tokenCount: string -> Option<nat>, score: string -> Option<real>)
    ensures forall e :: e in ScoredSentences(sentences, tokenCount, score) ==>
      e.text in sentences && Scorable(e.text, tokenCount, score) && score(e.text) == Some(e.perplexity)
  {
    if sentences != [] {
      var n := |sentences| - 1;
      ScoredSentencesCarryScore(sentences[..n], tokenCount, score);
      assert sentences == sentences[..n] + [sentences[n]];
    }
  }

  /** A sentence is reported exactly when it occurs in the input and is
      scorable; in particular one with fewer than three tokens, or whose
      tokenization or scoring raises, never is. */
  lemma ReportedIffScorable(
    sentences: seq<string>, tokenCount: string -> Option<nat>, score: string -> Option<real>, s: string)
    ensures s in Texts(ScoredSentences(sentences, tokenCount, score))
        <==> s in sentences && Scorable(s, tokenCount, score)
  {
    ScoredSentencesAreScorableSubsequence(sentences, tokenCount, score);
    FilterMembership(sentences, x => Scorable(x, tokenCount, score), s);
  }
}
