/** String primitives of the Python runtime that the services use:
    whitespace (str.isspace, regex `\s`), str.split() with no argument,
    str.strip(), str.lower() restricted to ASCII, single-character
    str.replace, and re.sub of a character class followed by `+`. */
module Text {
  import opened Common

  /** The characters for which Python's str.isspace() holds; the same set is
      matched by `\s` in a str pattern and separates words in str.split(). */
  predicate IsSpace(c: char)
  {
    c == ' ' || c == '\t' || c == '\n' || c == '\r' || c == '\U{0B}' || c == '\U{0C}'
    || ('\U{1C}' <= c <= '\U{1F}') || c == '\U{85}' || c == '\U{A0}' || c == '\U{1680}'
    || ('\U{2000}' <= c <= '\U{200A}') || c == '\U{2028}' || c == '\U{2029}'
    || c == '\U{202F}' || c == '\U{205F}' || c == '\U{3000}'
  }

  /** A word as str.split() yields it: non-empty, without whitespace. */
  predicate IsWord(w: string)
  {
    w != [] && forall i :: 0 <= i < |w| ==> !IsSpace(w[i])
  }

  /** No two neighbouring characters are both whitespace. */
  predicate NoDoubleSpace(s: string)
  {
    forall i :: 0 <= i < |s| - 1 ==> !(IsSpace(s[i]) && IsSpace(s[i + 1]))
  }

  /** Neither the first nor the last character is whitespace. */
  predicate Stripped(s: string)
  {
    s == [] || (!IsSpace(s[0]) && !IsSpace(s[|s| - 1]))
  }

  function LowerChar(c: char): (d: char)
  {
    if 'A' <= c <= 'Z' then (c as int + 32) as char else c
  }

  /** str.lower() on ASCII letters; every other character is kept. */
  function Lower(s: string): (r: string)
    ensures |r| == |s|
    ensures forall i :: 0 <= i < |s| ==> r[i] == LowerChar(s[i])
  {
    seq(|s|, i requires 0 <= i < |s| => LowerChar(s[i]))
  }

  /** Length of the leading run of characters satisfying p. */
  function RunLength(s: string, p: char -> bool): (n: nat)
    ensures n <= |s|
    ensures forall i :: 0 <= i < n ==> p(s[i])
    ensures n < |s| ==> !p(s[n])
  {
    if s == [] || !p(s[0]) then 0 else 1 + RunLength(s[1..], p)
  }

  predicate NotSpace(c: char) { !IsSpace(c) }

  /** str.split() with no separator: the maximal runs of non-whitespace, in order. */
  function Split(s: string): (ws: seq<string>)
    ensures forall k :: 0 <= k < |ws| ==> IsWord(ws[k])
    decreases |s|
  {
    if s == [] then []
    else if IsSpace(s[0]) then Split(s[1..])
    else
      var n := RunLength(s, NotSpace);
      [s[..n]] + Split(s[n..])
  }

  /** Python's str.strip() with no argument. */
  function Strip(s: string): (r: string)
    ensures Stripped(r)
    ensures Stripped(s) ==> r == s
  {
    var t := s[RunLength(s, IsSpace)..];
    var back := TrailingRun(t, IsSpace);
    t[..|t| - back]
  }

  /** str.strip() returns a contiguous piece of its argument. */
  lemma StripSlice(s: string) returns (i: nat, j: nat)
    ensures i <= j <= |s| && Strip(s) == s[i..j]
  {
    var t := s[RunLength(s, IsSpace)..];
    var back := TrailingRun(t, IsSpace);
    i, j := |s| - |t|, |s| - back;
    assert t[..|t| - back] == s[i..j];
  }

  /** Length of the trailing run of characters satisfying p. */
  function TrailingRun(s: string, p: char -> bool): (n: nat)
    ensures n <= |s|
    ensures forall i :: |s| - n <= i < |s| ==> p(s[i])
    ensures n < |s| ==> !p(s[|s| - 1 - n])
  {
    if s == [] || !p(s[|s| - 1]) then 0 else 1 + TrailingRun(s[..|s| - 1], p)
  }

  /** re.sub(C + '+', ' ', s) where C is the character class p: every maximal
      run of characters satisfying p becomes one space. */
  function SubRuns(s: string, p: char -> bool): (r: string)
    ensures |r| <= |s|
    ensures s != [] && !p(s[0]) ==> r != [] && r[0] == s[0]
    ensures forall i :: 0 <= i < |r| ==> r[i] == ' ' || !p(r[i])
    ensures forall i :: 0 <= i < |r| - 1 ==> !(p(r[i]) && p(r[i + 1]))
    decreases |s|
  {
    if s == [] then []
    else if p(s[0]) then
      var n := RunLength(s, p);
      " " + SubRuns(s[n..], p)
    else
      [s[0]] + SubRuns(s[1..], p)
  }

  /** re.sub(r'\s+', ' ', s). */
  function CollapseSpaces(s: string): (r: string)
  {
    SubRuns(s, IsSpace)
  }

  /** str.replace(a, b) for one-character strings a and b. */
  function ReplaceChar(s: string, a: char, b: char): (r: string)
    ensures |r| == |s|
    ensures forall i :: 0 <= i < |s| ==> r[i] == (if s[i] == a then b else s[i])
  {
    seq(|s|, i requires 0 <= i < |s| => if s[i] == a then b else s[i])
  }

  /** str.split(sep) for a one-character separator: the pieces between the
      separators, so always at least one piece, possibly empty ones. */
  function SplitOn(s: string, sep: char): (parts: seq<string>)
    ensures |parts| >= 1
    ensures forall k :: 0 <= k < |parts| ==> sep !in parts[k]
    decreases |s|
  {
    var n := IndexOrEnd(s, sep);
    if n == |s| then [s] else [s[..n]] + SplitOn(s[n + 1..], sep)
  }

  /** Position of the first sep in s, or |s| when there is none. */
  function IndexOrEnd(s: string, sep: char): (n: nat)
    ensures n <= |s|
    ensures forall i :: 0 <= i < n ==> s[i] != sep
    ensures n < |s| ==> s[n] == sep
  {
    if s == [] || s[0] == sep then 0 else 1 + IndexOrEnd(s[1..], sep)
  }

  /** sep.join(parts) */
  function Join(parts: seq<string>, sep: string): string
  {
    if parts == [] then ""
    else if |parts| == 1 then parts[0]
    else parts[0] + sep + Join(parts[1..], sep)
  }

  /** Joining the pieces of str.split(sep) with sep gives back the text. */
  lemma {:induction false} JoinSplitOn(s: string, sep: char)
    ensures Join(SplitOn(s, sep), [sep]) == s
    decreases |s|
  {
    var n := SplitOnStep(s, sep);
    if n < |s| {
      var front, back := s[..n], s[n + 1..];
      var rest := SplitOn(back, sep);
      JoinSplitOn(back, sep);
      JoinCons(front, rest, [sep]);
      SplitAround(s, n);
    }
  }

  /** One step of str.split(sep): the text up to the first sep, then the rest. */
  lemma SplitOnStep(s: string, sep: char) returns (n: nat)
    ensures n <= |s|
    ensures n == |s| ==> SplitOn(s, sep) == [s]
    ensures n < |s| ==> s[n] == sep && SplitOn(s, sep) == [s[..n]] + SplitOn(s[n + 1..], sep)
  {
    n := IndexOrEnd(s, sep);
  }

  /** Joining a first part onto at least one more puts the separator between them. */
  lemma JoinCons(first: string, rest: seq<string>, sep: string)
    requires rest != []
    ensures Join([first] + rest, sep) == first + sep + Join(rest, sep)
  {
    var parts := [first] + rest;
    assert parts[0] == first && parts[1..] == rest;
  }

  /** len(sentence.split()) */
  function WordCount(sentence: string): nat { |Split(sentence)| }

  /** [len(sentence.split()) for sentence in sentences] */
  function WordCounts(sentences: seq<string>): (c: seq<nat>)
    ensures |c| == |sentences|
    ensures forall i :: 0 <= i < |c| ==> c[i] == WordCount(sentences[i])
  {
    seq(|sentences|, i requires 0 <= i < |sentences| => WordCount(sentences[i]))
  }

  /** The shape re.sub(r'\s+', ' ', s) leaves: every whitespace character is a
      plain space and no two whitespace characters are adjacent. */
  predicate Collapsed(s: string)
  {
    NoDoubleSpace(s) && forall i :: 0 <= i < |s| ==> IsSpace(s[i]) ==> s[i] == ' '
  }

  /** A collapsed string is a fixed point of re.sub(r'\s+', ' ', _). */
  lemma {:induction false} CollapseFixed(s: string)
    requires Collapsed(s)
    ensures CollapseSpaces(s) == s
    decreases |s|
  {
    if s != [] {
      assert Collapsed(s[1..]);
      CollapseFixed(s[1..]);
      if IsSpace(s[0]) {
        assert RunLength(s, IsSpace) == 1;
      }
    }
  }

  /** re.sub leaves a string without any character of the class unchanged. */
  lemma {:induction false} SubRunsNoHit(s: string, p: char -> bool)
    requires forall i :: 0 <= i < |s| ==> !p(s[i])
    ensures SubRuns(s, p) == s
    decreases |s|
  {
    if s != [] {
      SubRunsNoHit(s[1..], p);
    }
  }

  /** Every contiguous piece of a collapsed string is collapsed. */
  lemma SliceCollapsed(s: string, i: nat, j: nat)
    requires i <= j <= |s| && Collapsed(s)
    ensures Collapsed(s[i..j])
  {
    var t := s[i..j];
    forall k | 0 <= k < |t| - 1 ensures !(IsSpace(t[k]) && IsSpace(t[k + 1])) {
      assert t[k] == s[i + k] && t[k + 1] == s[i + k + 1];
    }
  }

  /** str.strip() keeps a string collapsed. */
  lemma StripCollapsed(s: string)
    requires Collapsed(s)
    ensures Collapsed(Strip(s))
  {
    var i, j := StripSlice(s);
    SliceCollapsed(s, i, j);
  }

  /** The leading run is exactly n long when its first n characters satisfy p
      and the next one, if any, does not. */
  lemma {:induction false} RunLengthExact(s: string, p: char -> bool, n: nat)
    requires n <= |s|
    requires forall i :: 0 <= i < n ==> p(s[i])
    requires n < |s| ==> !p(s[n])
    ensures RunLength(s, p) == n
  {
    if n > 0 {
      RunLengthExact(s[1..], p, n - 1);
    }
  }

  /** Leading whitespace does not change str.split(). */
  lemma {:induction false} SplitSkipSpaces(s: string, m: nat)
    requires m <= |s|
    requires forall i :: 0 <= i < m ==> IsSpace(s[i])
    ensures Split(s) == Split(s[m..])
  {
    if m > 0 {
      SplitSkipSpaces(s[1..], m - 1);
      assert s[1..][m - 1..] == s[m..];
    }
  }

  /** A word followed by nothing or by whitespace is split off as one word. */
  lemma SplitWordThen(w: string, rest: string)
    requires IsWord(w)
    requires rest == [] || IsSpace(rest[0])
    ensures Split(w + rest) == [w] + Split(rest)
  {
    var s := w + rest;
    RunLengthExact(s, NotSpace, |w|);
    assert s[..|w|] == w && s[|w|..] == rest;
  }

  /** Trailing whitespace does not change str.split(). */
  lemma {:induction false} SplitTrailingSpaces(u: string, v: string)
    requires forall i :: 0 <= i < |v| ==> IsSpace(v[i])
    ensures Split(u + v) == Split(u)
    decreases |u|
  {
    if u == [] {
      assert u + v == v;
      SplitSkipSpaces(v, |v|);
    } else if IsSpace(u[0]) {
      assert (u + v)[1..] == u[1..] + v;
      SplitTrailingSpaces(u[1..], v);
    } else {
      var n := RunLength(u, NotSpace);
      RunLengthExact(u + v, NotSpace, n);
      assert (u + v)[..n] == u[..n];
      assert (u + v)[n..] == u[n..] + v;
      SplitTrailingSpaces(u[n..], v);
    }
  }

  /** str.strip() does not change str.split(). */
  lemma StripKeepsWords(s: string)
    ensures Split(Strip(s)) == Split(s)
  {
    var i, j := StripBounds(s);
    SplitIgnoresOuterSpaces(s, i, j);
  }

  /** str.strip() cuts whitespace only, from both ends. */
  lemma StripBounds(s: string) returns (i: nat, j: nat)
    ensures i <= j <= |s| && Strip(s) == s[i..j]
    ensures forall c :: 0 <= c < i ==> IsSpace(s[c])
    ensures forall c :: j <= c < |s| ==> IsSpace(s[c])
  {
    var t := s[RunLength(s, IsSpace)..];
    var back := TrailingRun(t, IsSpace);
    i, j := |s| - |t|, |s| - back;
    assert t[..|t| - back] == s[i..j];
    forall c | j <= c < |s| ensures IsSpace(s[c]) {
      assert s[c] == t[c - i];
    }
  }

  /** Whitespace before position i and from position j on does not change str.split(). */
  lemma SplitIgnoresOuterSpaces(s: string, i: nat, j: nat)
    requires i <= j <= |s|
    requires forall c :: 0 <= c < i ==> IsSpace(s[c])
    requires forall c :: j <= c < |s| ==> IsSpace(s[c])
    ensures Split(s[i..j]) == Split(s)
  {
    SplitSkipSpaces(s, i);
    SpacesSuffix(s, j);
    SliceThenSuffix(s, i, j);
    SplitTrailingSpaces(s[i..j], s[j..]);
  }

  lemma SpacesSuffix(s: string, j: nat)
    requires j <= |s|
    requires forall c :: j <= c < |s| ==> IsSpace(s[c])
    ensures forall c :: 0 <= c < |s[j..]| ==> IsSpace(s[j..][c])
  {
    forall c | 0 <= c < |s[j..]| ensures IsSpace(s[j..][c]) {
      assert s[j..][c] == s[j + c];
    }
  }

  /** A prefix without characters of the class passes through re.sub unchanged. */
  lemma {:induction false} SubRunsKeepPrefix(s: string, p: char -> bool, n: nat)
    requires n <= |s|
    requires forall i :: 0 <= i < n ==> !p(s[i])
    ensures SubRuns(s, p) == s[..n] + SubRuns(s[n..], p)
  {
    if n > 0 {
      var tail := s[1..];
      forall i | 0 <= i < n - 1 ensures !p(tail[i]) { assert tail[i] == s[i + 1]; }
      SubRunsKeepPrefix(tail, p, n - 1);
      SubRunsCons(s, p);
      SuffixOfSuffix(s, 1, n);
      PrefixCons(s, n);
      ConcatAssociative([s[0]], tail[..n - 1], SubRuns(s[n..], p));
    } else {
      assert s[0..] == s;
      EmptyPrefixConcat(s, SubRuns(s, p));
    }
  }

  /** A first character outside the class is copied, then the rest is rewritten. */
  lemma SubRunsCons(s: string, p: char -> bool)
    requires s != [] && !p(s[0])
    ensures SubRuns(s, p) == [s[0]] + SubRuns(s[1..], p)
  {
  }

  /** Replacing runs of whitespace characters by one space does not change
      str.split(). */
  lemma {:induction false} SubRunsKeepsWords(s: string, p: char -> bool)
    requires forall c :: p(c) ==> IsSpace(c)
    ensures Split(SubRuns(s, p)) == Split(s)
    decreases |s|
  {
    if s == [] {
    } else if p(s[0]) {
      var m := RunLength(s, p);
      SubRunsKeepsWords(s[m..], p);
      SplitSkipSpaces(s, m);
      assert (" " + SubRuns(s[m..], p))[1..] == SubRuns(s[m..], p);
    } else if IsSpace(s[0]) {
      SubRunsKeepsWords(s[1..], p);
      assert ([s[0]] + SubRuns(s[1..], p))[1..] == SubRuns(s[1..], p);
    } else {
      var n := RunLength(s, NotSpace);
      SubRunsKeepPrefix(s, p, n);
      SubRunsKeepsWords(s[n..], p);
      SplitWordThen(s[..n], SubRuns(s[n..], p));
    }
  }
}
