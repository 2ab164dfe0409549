/** Text preparation of the detector: whitespace cleaning, the filter that
    drops sentences of fewer than three words, and four stylometric ratios.
    The sentence splitter (nltk's sent_tokenize) is not part of this model:
    it is passed in as a function from text to sentences. */
module DetectorPreprocessing {
  import opened Common
  import opened Text

  /** The class [\r\n\t]. */
  predicate IsLineControl(c: char)
  {
    c == '\r' || c == '\n' || c == '\t'
  }

  /** The four quote "standardisations": each replaces a quote character by
      the very same character. */
  function ReplaceQuotes(s: string): string
  {
    ReplaceChar(ReplaceChar(ReplaceChar(ReplaceChar(s, '"', '"'), '"', '"'), '\'', '\''), '\'', '\'')
  }

  /** clean_text: runs of \r, \n, \t become one space, then every whitespace
      run becomes one space, quotes are replaced, and the ends are stripped. */
  function CleanText(text: string): (r: string)
    ensures forall i :: 0 <= i < |r| ==> !IsLineControl(r[i])
    ensures Collapsed(r)
    ensures Stripped(r)
  {
    var collapsed := CollapseSpaces(SubRuns(text, IsLineControl));
    QuoteReplacementIsIdentity(collapsed);
    StripCollapsed(collapsed);
    Strip(ReplaceQuotes(collapsed))
  }

  /** As written, the quote replacements change nothing. */
  lemma QuoteReplacementIsIdentity(s: string)
    ensures ReplaceQuotes(s) == s
  {
    assert ReplaceChar(s, '"', '"') == s;
    assert ReplaceChar(s, '\'', '\'') == s;
  }

  /** Cleaning a cleaned text changes nothing. */
  lemma CleanTextIdempotent(text: string)
    ensures CleanText(CleanText(text)) == CleanText(text)
  {
    var r := CleanText(text);
    SubRunsNoHit(r, IsLineControl);
    CollapseFixed(r);
    QuoteReplacementIsIdentity(r);
  }

  /** Cleaning leaves the words of the text as they were. */
  lemma CleanTextKeepsWords(text: string)
    ensures Split(CleanText(text)) == Split(text)
  {
    var once := SubRuns(text, IsLineControl);
    SubRunsKeepsWords(text, IsLineControl);
    SubRunsKeepsWords(once, IsSpace);
    QuoteReplacementIsIdentity(CollapseSpaces(once));
    StripKeepsWords(CollapseSpaces(once));
  }

  /** The sentences with at least three whitespace-separated words. */
  predicate LongEnough(sentence: string)
  {
    WordCount(sentence) >= 3
  }

  /** tokenize_sentences: the splitter's sentences with at least three words,
      in their order. */
  function TokenizeSentences(text: string, sentTokenize: string -> seq<string>): (sentences: seq<string>)
    ensures forall k :: 0 <= k < |sentences| ==> WordCount(sentences[k]) >= 3
  {
    Filter(sentTokenize(text), LongEnough)
  }

  /** A sentence is kept exactly when the splitter produced it and it has at
      least three words; the kept ones keep their relative order. */
  lemma TokenizeSentencesKeeps(text: string, sentTokenize: string -> seq<string>, s: string, before: seq<string>, after: seq<string>)
    ensures s in TokenizeSentences(text, sentTokenize) <==> s in sentTokenize(text) && WordCount(s) >= 3
    ensures sentTokenize(text) == before + after ==>
      TokenizeSentences(text, sentTokenize) == Filter(before, LongEnough) + Filter(after, LongEnough)
  {
    FilterMembership(sentTokenize(text), LongEnough, s);
    FilterAppend(before, after, LongEnough);
  }

  /** preprocess_text: the cleaned text, which keeps the words of the input,
      and exactly those sentences of the cleaned text that have at least
      three words. */
  function PreprocessText(text: string, sentTokenize: string -> seq<string>): (r: (string, seq<string>))
    ensures Collapsed(r.0) && Stripped(r.0)
    ensures Split(r.0) == Split(text)
    ensures forall s :: s in r.1 <==> s in sentTokenize(r.0) && WordCount(s) >= 3
  {
    var cleaned := CleanText(text);
    CleanTextKeepsWords(text);
    forall s ensures s in TokenizeSentences(cleaned, sentTokenize) <==> s in sentTokenize(cleaned) && WordCount(s) >= 3 {
      FilterMembership(sentTokenize(cleaned), LongEnough, s);
    }
    (cleaned, TokenizeSentences(cleaned, sentTokenize))
  }

  datatype StyleFeatures = StyleFeatures(
    avgSentenceLength: real,
    sentenceLengthVar: real,
    lexicalDiversity: real,
    stopwordRatio: real)

  const ZeroFeatures := StyleFeatures(0.0, 0.0, 0.0, 0.0)

  /** The fixed set of functional words. */
  const Stopwords: set<string> := {
    "the", "a", "an", "in", "on", "at", "for", "with", "and", "or", "but",
    "is", "are", "was", "were", "to", "of"
  }

  predicate IsStopword(w: string)
  {
    Lower(w) in Stopwords
  }

  function LowerAll(words: seq<string>): (r: seq<string>)
    ensures |r| == |words|
    ensures forall i :: 0 <= i < |words| ==> r[i] == Lower(words[i])
  {
    seq(|words|, i requires 0 <= i < |words| => Lower(words[i]))
  }

  /** extract_stylometric_features. */
  function ExtractStyleFeatures(text: string, sentences: seq<string>): (f: StyleFeatures)
    ensures Split(text) == [] || sentences == [] ==> f == ZeroFeatures
    ensures Split(text) != [] && sentences != [] ==>
      && f.sentenceLengthVar >= 0.0
      && 0.0 < f.lexicalDiversity <= 1.0
      && (f.lexicalDiversity == 1.0 <==> AllDistinct(LowerAll(Split(text))))
      && 0.0 <= f.stopwordRatio <= 1.0
      && (f.stopwordRatio == 0.0 <==> forall k :: 0 <= k < |Split(text)| ==> !IsStopword(Split(text)[k]))
  {
    var words := Split(text);
    if words == [] || sentences == [] then ZeroFeatures
    else
      var lengths := WordCounts(sentences);
      var unique := Distinct(LowerAll(words));
      var stopCount := |Filter(words, IsStopword)|;
      VarianceNonNegative(lengths);
      DistinctCard(LowerAll(words));
      CountRatio(|unique|, |words|);
      CountRatio(stopCount, |words|);
      FilterDropsAll(words, IsStopword);
      StyleFeatures(
        Mean(lengths),
        Variance(lengths),
        |unique| as real / |words| as real,
        stopCount as real / |words| as real)
  }

  /** The average sentence length lies between any bounds on the sentence
      lengths, in particular between the shortest and the longest sentence. */
  lemma AverageSentenceLengthBounds(text: string, sentences: seq<string>, lo: nat, hi: nat)
    requires Split(text) != [] && sentences != []
    requires forall k :: 0 <= k < |sentences| ==> lo <= WordCount(sentences[k]) <= hi
    ensures lo as real <= ExtractStyleFeatures(text, sentences).avgSentenceLength <= hi as real
  {
    MeanBounds(WordCounts(sentences), lo as real, hi as real);
  }
}
