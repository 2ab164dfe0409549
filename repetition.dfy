/** Repetition metrics over the lower-cased whitespace tokens of a text:
    the share of repeated n-grams, the type-token ratio, and their blend. */
module Repetition {
  import opened Common
  import opened Text

  /** text.lower().split() */
  function Words(text: string): seq<string>
  {
    Split(Lower(text))
  }

  /** [tuple(words[i:i+n]) for i in range(len(words) - n + 1)]; empty when
      there are fewer than n words. */
  function NGrams(words: seq<string>, n: nat): (g: seq<seq<string>>)
    ensures n <= |words| ==> |g| == |words| - n + 1
    ensures n > |words| ==> g == []
    ensures forall i :: 0 <= i < |g| ==> |g[i]| == n && g[i] == words[i..i + n]
  {
    var count := if n <= |words| then |words| - n + 1 else 0;
    seq(count, i requires 0 <= i < count => words[i..i + n])
  }

  /** calculate_ngram_repetition: (total - distinct) / total over the n-grams,
      and 0 when there are fewer than n words. */
  function NgramRepetition(text: string, n: nat): (r: real)
    ensures 0.0 <= r < 1.0
    ensures |Words(text)| < n ==> r == 0.0
    ensures r == 0.0 <==> AllDistinct(NGrams(Words(text), n))
  {
    var words := Words(text);
    if |words| < n then 0.0
    else
      var grams := NGrams(words, n);
      var total := |grams|;
      var unique := |Distinct(grams)|;
      DistinctCard(grams);
      CountRatio(unique, total);
      CountRatio(total - unique, total);
      (total - unique) as real / total as real
  }

  /** calculate_token_diversity: distinct words / words, 1.0 for a text without words. */
  function TokenDiversity(text: string): (d: real)
    ensures Words(text) == [] ==> d == 1.0
    ensures 0.0 < d <= 1.0
    ensures d == 1.0 <==> AllDistinct(Words(text))
  {
    var words := Words(text);
    if words == [] then 1.0
    else
      DistinctCard(words);
      CountRatio(|Distinct(words)|, |words|);
      |Distinct(words)| as real / |words| as real
  }

  /** calculate_repetition_score: 0.3 * bigram + 0.3 * trigram + 0.4 * (1 - diversity). */
  function RepetitionScore(text: string): (r: real)
    ensures 0.0 <= r < 1.0
  {
    var bigram := NgramRepetition(text, 2);
    var trigram := NgramRepetition(text, 3);
    var diversity := TokenDiversity(text);
    bigram * 0.3 + trigram * 0.3 + (1.0 - diversity) * 0.4
  }

  /** normalize_repetition: 100 * r. */
  function NormalizeRepetition(repetition: real): (r: real)
    ensures 0.0 <= repetition <= 1.0 ==> 0.0 <= r <= 100.0
  {
    100.0 * repetition
  }

  /** A higher repetition ratio never gives a lower normalised score. */
  lemma NormalizeRepetitionMonotone(a: real, b: real)
    requires a <= b
    ensures NormalizeRepetition(a) <= NormalizeRepetition(b)
  {
    assert NormalizeRepetition(b) - NormalizeRepetition(a) == 100.0 * (b - a);
  }

  /** When no word repeats, no n-gram (n >= 1) repeats either. */
  lemma DistinctWordsDistinctNGrams(words: seq<string>, n: nat)
    requires n >= 1 && AllDistinct(words)
    ensures AllDistinct(NGrams(words, n))
  {
    var g := NGrams(words, n);
    forall i, j | 0 <= i < j < |g| ensures g[i] != g[j] {
      assert g[i][0] == words[i] && g[j][0] == words[j];
    }
  }

  /** A text in which no word repeats scores 0: both n-gram ratios are 0 and
      the diversity is 1. */
  lemma DistinctWordsScoreZero(text: string)
    requires AllDistinct(Words(text))
    ensures RepetitionScore(text) == 0.0
  {
    DistinctWordsDistinctNGrams(Words(text), 2);
    DistinctWordsDistinctNGrams(Words(text), 3);
  }

  /** Two texts that differ only in the case of their letters. */
  predicate SameUpToCase(a: string, b: string)
  {
    |a| == |b| && forall i :: 0 <= i < |a| ==> LowerChar(a[i]) == LowerChar(b[i])
  }

  /** Repetition and diversity ignore letter case. */
  lemma CaseInsensitive(a: string, b: string)
    requires SameUpToCase(a, b)
    ensures NgramRepetition(a, 2) == NgramRepetition(b, 2)
    ensures NgramRepetition(a, 3) == NgramRepetition(b, 3)
    ensures TokenDiversity(a) == TokenDiversity(b)
    ensures RepetitionScore(a) == RepetitionScore(b)
  {
    assert Lower(a) == Lower(b);
  }
}
