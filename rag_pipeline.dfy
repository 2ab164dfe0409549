/** The two word-overlap scores of the RAG pipeline. Both compare the sets of
    lower-cased whitespace-separated words of two texts. */
module RagPipeline {
  import opened Common
  import opened Text

  /** set(text.lower().split()) */
  function WordSet(text: string): set<string>
  {
    Distinct(Split(Lower(text)))
  }

  /** |overlap| / max(1, |base|): the share of the base words that the other
      set also has. */
  function Coverage(base: set<string>, other: set<string>): (r: real)
    ensures 0.0 <= r <= 1.0
    ensures base == {} ==> r == 0.0
    ensures r == 0.0 <==> base * other == {}
    ensures r == 1.0 <==> base != {} && base <= other
  {
    var common := base * other;
    var denominator := if |base| >= 1 then |base| else 1;
    if base == {} then
      assert common == {};
      0.0
    else
      OverlapCard(base, other);
      CountRatio(|common|, |base|);
      |common| as real / denominator as real
  }

  /** The overlap is no larger than the base set, and as large only when it
      is the whole base set. */
  lemma OverlapCard(base: set<string>, other: set<string>)
    ensures |base * other| <= |base|
    ensures |base * other| == |base| <==> base <= other
  {
    assert base == (base - other) + (base * other);
    assert (base - other) * (base * other) == {};
    if |base * other| == |base| {
      assert base - other == {};
    }
    if base <= other {
      assert base * other == base;
    }
  }

  /** faithfulness_score: the share of the answer's words found in the context. */
  function FaithfulnessScore(answer: string, context: string): (r: real)
    ensures 0.0 <= r <= 1.0
    ensures Split(answer) == [] ==> r == 0.0
    ensures r == 1.0 <==> WordSet(answer) != {} && WordSet(answer) <= WordSet(context)
  {
    assert Split(answer) == [] ==> Split(Lower(answer)) == [] by {
      LowerKeepsWordCount(answer);
    }
    Coverage(WordSet(answer), WordSet(context))
  }

  /** answer_relevance_score: the share of the query's words found in the answer. */
  function AnswerRelevanceScore(answer: string, query: string): (r: real)
    ensures 0.0 <= r <= 1.0
    ensures Split(query) == [] ==> r == 0.0
    ensures r == 1.0 <==> WordSet(query) != {} && WordSet(query) <= WordSet(answer)
  {
    assert Split(query) == [] ==> Split(Lower(query)) == [] by {
      LowerKeepsWordCount(query);
    }
    Coverage(WordSet(query), WordSet(answer))
  }

  /** ASCII lower-casing keeps whitespace where it is, so the number of words. */
  lemma {:induction false} LowerKeepsWordCount(s: string)
    ensures |Split(Lower(s))| == |Split(s)|
    decreases |s|
  {
    if s != [] {
      var l := Lower(s);
      if IsSpace(s[0]) {
        assert l[1..] == Lower(s[1..]);
        LowerKeepsWordCount(s[1..]);
      } else {
        var n := RunLength(s, NotSpace);
        RunLengthExact(l, NotSpace, n);
        assert l[n..] == Lower(s[n..]);
        LowerKeepsWordCount(s[n..]);
      }
    }
  }

  /** Both scores depend only on the word sets: texts with the same words,
      in any order, any number of times and in any letter case, score alike. */
  lemma ScoresDependOnWordSetsOnly(a1: string, a2: string, c1: string, c2: string)
    requires WordSet(a1) == WordSet(a2) && WordSet(c1) == WordSet(c2)
    ensures FaithfulnessScore(a1, c1) == FaithfulnessScore(a2, c2)
    ensures AnswerRelevanceScore(a1, c1) == AnswerRelevanceScore(a2, c2)
  {
  }

  /** In particular letter case does not matter. */
  lemma CaseInsensitive(a1: string, a2: string)
    requires |a1| == |a2| && forall i :: 0 <= i < |a1| ==> LowerChar(a1[i]) == LowerChar(a2[i])
    ensures WordSet(a1) == WordSet(a2)
  {
    assert Lower(a1) == Lower(a2);
  }

  /** Faithfulness is 0 exactly when answer and context share no word. */
  lemma FaithfulnessZeroIff(answer: string, context: string)
    ensures FaithfulnessScore(answer, context) == 0.0 <==> WordSet(answer) * WordSet(context) == {}
  {
  }
}
