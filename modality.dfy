/** Prose-versus-technical detection: 21 code patterns, the density of code
    symbols per word and the share of indented lines decide whether a text is
    treated as code. The regular-expression engine is not part of this model:
    `search(pattern, text)` stands for re.search(pattern, text,
    re.IGNORECASE | re.MULTILINE) finding a match. */
module Modality {
  import opened Common
  import opened Text

  /** The code markers, in the order the loop tries them. */
  const CodePatterns: seq<string> := [
    @"\bimport\b.*\bfrom\b",
    @"\bdef\b\s+\w+\s*\(",
    @"\bclass\b\s+\w+[:\(]",
    @"const\s+\w+\s*=",
    @"let\s+\w+\s*=",
    @"var\s+\w+\s*=",
    @"\bpublic\s+class\b",
    @"Console\.WriteLine",
    @"System\.out\.println",
    @"\s*=\s*\[.*\]",
    @"\s*=\s*\{.*\}",
    @"\bif\b\s*\(.*\)\s*\{",
    @"\bfunction\b\s*\w*\s*\(",
    @"#include\s+<.*>",
    @"<\?php",
    @"pip\s+install",
    @"npm\s+install",
    @"docker-compose",
    @"\.py$",
    @"\.js$",
    @"--\w+"
  ]

  datatype Kind = Prose | Technical

  datatype ModalityResult = ModalityResult(kind: Kind, confidence: real, reason: string)

  const TechnicalReason: string := "Code-like structures or syntax detected"
  const ProseReason: string := "Natural language patterns detected"

  /** A line starting with four spaces or a tab. */
  predicate IsIndented(line: string)
  {
    (|line| >= 4 && line[..4] == "    ") || (|line| >= 1 && line[0] == '\t')
  }

  /** A character of the class [{}()\[\]=<>:;]. */
  predicate IsSymbol(c: char)
  {
    c in "{}()[]=<>:;"
  }

  /** text.split('\n') */
  function Lines(text: string): seq<string>
  {
    SplitOn(text, '\n')
  }

  function IndentCount(text: string): nat
  {
    |Filter(Lines(text), IsIndented)|
  }

  /** len(re.findall(r'[{}()\[\]=<>:;]', text)) */
  function SymbolCount(text: string): nat
  {
    |Filter(text, IsSymbol)|
  }

  /** How many patterns the loop has counted after trying `patterns`. */
  function MatchCount(patterns: seq<string>, text: string, search: (string, string) -> bool): (m: nat)
    ensures m <= |patterns|
  {
    if patterns == [] then 0
    else
      MatchCount(patterns[..|patterns| - 1], text, search)
      + (if search(patterns[|patterns| - 1], text) then 1 else 0)
  }

  /** Symbols per whitespace-separated word, 0 for a text without words. */
  function SymbolDensity(text: string): (d: real)
    ensures 0.0 <= d
    ensures Split(text) == [] ==> d == 0.0
  {
    var words := |Split(text)|;
    if words > 0 then SymbolCount(text) as real / words as real else 0.0
  }

  /** Share of the lines that are indented. */
  function IndentDensity(text: string): (d: real)
    ensures 0.0 <= d <= 1.0
    ensures d == 0.0 <==> IndentCount(text) == 0
    ensures d == 1.0 <==> forall k :: 0 <= k < |Lines(text)| ==> IsIndented(Lines(text)[k])
  {
    var lines := Lines(text);
    FilterKeepsAll(lines, IsIndented);
    CountRatio(IndentCount(text), |lines|);
    IndentCount(text) as real / |lines| as real
  }

  /** The decision rule of detect_modality. */
  predicate IsTechnical(matches: nat, symbolDensity: real, indentDensity: real)
  {
    || matches >= 2
    || (matches >= 1 && symbolDensity > 0.3)
    || symbolDensity > 0.5
    || (indentDensity > 0.4 && symbolDensity > 0.2)
  }

  /** The result for given measurements: technical with confidence
      min(0.5 + 0.1 * matches + 0.2 * symbolDensity, 1.0), otherwise prose
      with confidence 1.0. */
  function Classify(matches: nat, symbolDensity: real, indentDensity: real): (r: ModalityResult)
    ensures r.kind == Technical <==> IsTechnical(matches, symbolDensity, indentDensity)
    ensures r.kind == Technical && symbolDensity >= 0.0 ==> 0.5 <= r.confidence <= 1.0
    ensures r.kind == Technical && 0.5 + matches as real * 0.1 + symbolDensity * 0.2 >= 1.0 ==> r.confidence == 1.0
    ensures r.kind == Prose ==> r.confidence == 1.0 && r.reason == ProseReason
  {
    if IsTechnical(matches, symbolDensity, indentDensity) then
      ModalityResult(Technical, Min(0.5 + matches as real * 0.1 + symbolDensity * 0.2, 1.0), TechnicalReason)
    else
      ModalityResult(Prose, 1.0, ProseReason)
  }

  /** What detect_modality returns for a text. */
  function ModalityOf(text: string, search: (string, string) -> bool): ModalityResult
  {
    Classify(MatchCount(CodePatterns, text, search), SymbolDensity(text), IndentDensity(text))
  }

  /** The loop over the code patterns: one count per pattern that matches. */
  method CountPatternMatches(patterns: seq<string>, text: string, search: (string, string) -> bool)
    returns (matches: nat)
    ensures matches == MatchCount(patterns, text, search)
  {
    matches := 0;
    for i := 0 to |patterns|
      invariant matches == MatchCount(patterns[..i], text, search)
    {
      assert patterns[..i + 1][..i] == patterns[..i];
      if search(patterns[i], text) {
        matches := matches + 1;
      }
    }
    assert patterns[..|patterns|] == patterns;
  }

  /** detect_modality. */
  method DetectModality(text: string, search: (string, string) -> bool) returns (r: ModalityResult)
    ensures r == ModalityOf(text, search)
    ensures r.kind == Technical <==>
      IsTechnical(MatchCount(CodePatterns, text, search), SymbolDensity(text), IndentDensity(text))
    ensures r.kind == Technical ==> 0.5 <= r.confidence <= 1.0 && r.reason == TechnicalReason
    ensures r.kind == Prose ==> r == ModalityResult(Prose, 1.0, ProseReason)
  {
    var lines := SplitOn(text, '\n');
    var indentCount := |Filter(lines, IsIndented)|;
    var symbolCount := |Filter(text, IsSymbol)|;
    var wordCount := |Split(text)|;
    var patternMatches := CountPatternMatches(CodePatterns, text, search);
    var symbolDensity := if wordCount > 0 then symbolCount as real / wordCount as real else 0.0;
    var indentDensity := indentCount as real / |lines| as real;
    assert symbolDensity == SymbolDensity(text) && indentDensity == IndentDensity(text);
    if IsTechnical(patternMatches, symbolDensity, indentDensity) {
      r := ModalityResult(Technical, Min(0.5 + patternMatches as real * 0.1 + symbolDensity * 0.2, 1.0), TechnicalReason);
    } else {
      r := ModalityResult(Prose, 1.0, ProseReason);
    }
    assert r == Classify(patternMatches, symbolDensity, indentDensity);
  }

  /** The loop's count is the number of matching patterns. */
  lemma {:induction false} MatchCountIsFilter(patterns: seq<string>, text: string, search: (string, string) -> bool)
    ensures MatchCount(patterns, text, search) == |Filter(patterns, pattern => search(pattern, text))|
  {
    if patterns != [] {
      var n := |patterns| - 1;
      var p := pattern => search(pattern, text);
      MatchCountIsFilter(patterns[..n], text, search);
      assert patterns == patterns[..n] + [patterns[n]];
      FilterAppend(patterns[..n], [patterns[n]], p);
      assert Filter([patterns[n]], p) == (if p(patterns[n]) then [patterns[n]] else []) + Filter([patterns[n]][1..], p);
    }
  }

  /** str.split('\n') never returns an empty list, so the zero-line branch
      of detect_modality is never taken and the indent density is always
      defined. */
  lemma LinesNeverEmpty(text: string)
    ensures |Lines(text)| >= 1
    ensures Join(Lines(text), "\n") == text
  {
    JoinSplitOn(text, '\n');
  }

  /** Two distinct matching patterns count at least twice. */
  lemma {:induction false} TwoMatchesCount(patterns: seq<string>, text: string, search: (string, string) -> bool, i: nat, j: nat)
    requires i < j < |patterns|
    requires search(patterns[i], text) && search(patterns[j], text)
    ensures MatchCount(patterns, text, search) >= 2
  {
    var n := |patterns| - 1;
    var init := patterns[..n];
    if j < n {
      assert init[i] == patterns[i] && init[j] == patterns[j];
      TwoMatchesCount(init, text, search, i, j);
    } else {
      assert init[i] == patterns[i];
      OneMatchCounts(init, text, search, i);
    }
  }

  /** One matching pattern counts at least once. */
  lemma {:induction false} OneMatchCounts(patterns: seq<string>, text: string, search: (string, string) -> bool, i: nat)
    requires i < |patterns| && search(patterns[i], text)
    ensures MatchCount(patterns, text, search) >= 1
  {
    var n := |patterns| - 1;
    if i < n {
      assert patterns[..n][i] == patterns[i];
      OneMatchCounts(patterns[..n], text, search, i);
    }
  }

  /** No matching pattern, no count. */
  lemma {:induction false} NoMatchNoCount(patterns: seq<string>, text: string, search: (string, string) -> bool)
    requires forall k :: 0 <= k < |patterns| ==> !search(patterns[k], text)
    ensures MatchCount(patterns, text, search) == 0
  {
    if patterns != [] {
      var n := |patterns| - 1;
      assert forall k :: 0 <= k < n ==> patterns[..n][k] == patterns[k];
      NoMatchNoCount(patterns[..n], text, search);
    }
  }

  /** Two or more matching code patterns make a text technical whatever its
      symbols and indentation. */
  lemma TwoPatternsSuffice(text: string, search: (string, string) -> bool, i: nat, j: nat)
    requires i < j < |CodePatterns|
    requires search(CodePatterns[i], text) && search(CodePatterns[j], text)
    ensures ModalityOf(text, search).kind == Technical
  {
    TwoMatchesCount(CodePatterns, text, search, i, j);
  }

  /** More evidence never turns a technical verdict into prose, and never
      lowers the confidence of a technical one. */
  lemma ClassifyMonotone(m1: nat, s1: real, i1: real, m2: nat, s2: real, i2: real)
    requires m1 <= m2 && 0.0 <= s1 <= s2 && i1 <= i2
    requires Classify(m1, s1, i1).kind == Technical
    ensures Classify(m2, s2, i2).kind == Technical
    ensures Classify(m1, s1, i1).confidence <= Classify(m2, s2, i2).confidence
  {
  }

  /** A text with neither a matching pattern nor a symbol is prose. */
  lemma NoEvidenceIsProse(text: string, search: (string, string) -> bool)
    requires forall k :: 0 <= k < |CodePatterns| ==> !search(CodePatterns[k], text)
    requires forall k :: 0 <= k < |text| ==> !IsSymbol(text[k])
    ensures ModalityOf(text, search) == ModalityResult(Prose, 1.0, ProseReason)
  {
    NoMatchNoCount(CodePatterns, text, search);
    FilterDropsAll(text, IsSymbol);
  }
}
