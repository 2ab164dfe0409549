/** Whitespace cleaning of the RAG corpus: a value that is not a string
    becomes the empty string; otherwise whitespace runs become one space,
    carriage returns and newlines become spaces, and the ends are stripped. */
module RagPreprocessing {
  import opened Text

  /** The input of clean_text: a string, or any other Python value. */
  datatype Value = Str(s: string) | Other

  /** text.replace('\r', ' ').replace('\n', ' ') */
  function ReplaceLineBreaks(s: string): string
  {
    ReplaceChar(ReplaceChar(s, '\r', ' '), '\n', ' ')
  }

  /** clean_text. */
  function CleanText(v: Value): (r: string)
    ensures v.Other? ==> r == ""
    ensures Collapsed(r) && Stripped(r)
    ensures '\r' !in r && '\n' !in r
  {
    match v
    case Other => ""
    case Str(s) =>
      var collapsed := CollapseSpaces(s);
      LineBreakReplacementIsIdentity(s);
      StripCollapsed(collapsed);
      Strip(ReplaceLineBreaks(collapsed))
  }

  /** After re.sub(r'\s+', ' ', _) there is no carriage return or newline
      left, so the two replacements change nothing. */
  lemma LineBreakReplacementIsIdentity(s: string)
    ensures ReplaceLineBreaks(CollapseSpaces(s)) == CollapseSpaces(s)
  {
    var c := CollapseSpaces(s);
    assert forall i :: 0 <= i < |c| ==> c[i] != '\r' && c[i] != '\n' by {
      forall i | 0 <= i < |c| ensures c[i] != '\r' && c[i] != '\n' {
        assert c[i] == ' ' || !IsSpace(c[i]);
      }
    }
  }

  /** Cleaning a cleaned string changes nothing. */
  lemma CleanTextIdempotent(v: Value)
    ensures CleanText(Str(CleanText(v))) == CleanText(v)
  {
    var r := CleanText(v);
    CollapseFixed(r);
    LineBreakReplacementIsIdentity(r);
  }

  /** Cleaning a string keeps its words, in order. */
  lemma CleanTextKeepsWords(s: string)
    ensures Split(CleanText(Str(s))) == Split(s)
  {
    SubRunsKeepsWords(s, IsSpace);
    LineBreakReplacementIsIdentity(s);
    StripKeepsWords(CollapseSpaces(s));
  }
}
