/** Sentence splitting and fixed-size sentence chunking of the RAG corpus.
    A document is its text and a metadata dictionary; every chunk carries a
    copy of its document's metadata. */
module RagChunking {
  import opened Common
  import opened Text

  /** The class [.!?] that ends a sentence. */
  predicate IsTerminator(c: char)
  {
    c == '.' || c == '!' || c == '?'
  }

  predicate NotTerminator(c: char) { !IsTerminator(c) }

  predicate NoTerminator(s: string)
  {
    forall i :: 0 <= i < |s| ==> !IsTerminator(s[i])
  }

  /** Length of the leading stretch of s that holds no terminator. */
  function UntilTerminator(s: string): (n: nat)
    ensures n <= |s|
    ensures forall i :: 0 <= i < n ==> !IsTerminator(s[i])
    ensures n < |s| ==> IsTerminator(s[n])
  {
    if s == [] || IsTerminator(s[0]) then 0 else 1 + UntilTerminator(s[1..])
  }

  /** Length of the run of terminators that starts at position n of s. */
  function TerminatorRun(s: string, n: nat): (m: nat)
    requires n <= |s|
    ensures n + m <= |s|
    ensures forall i :: n <= i < n + m ==> IsTerminator(s[i])
    ensures n < |s| && IsTerminator(s[n]) ==> m >= 1
    decreases |s| - n
  {
    if n == |s| || !IsTerminator(s[n]) then 0 else 1 + TerminatorRun(s, n + 1)
  }

  /** re.split(r'[.!?]+', text): the pieces between maximal runs of
      terminators; a run at either end yields an empty piece there. */
  function SplitOnTerminators(text: string): (pieces: seq<string>)
    ensures |pieces| >= 1
    decreases |text|
  {
    var n := UntilTerminator(text);
    if n == |text| then [text]
    else
      var m := TerminatorRun(text, n);
      [text[..n]] + SplitOnTerminators(text[n + m..])
  }

  /** One step of the splitter: the text up to the first terminator, then
      the pieces after the run of terminators that follows it. */
  lemma SplitOnTerminatorsStep(t: string) returns (last: bool, n: nat, m: nat)
    ensures n + m <= |t|
    ensures forall i :: 0 <= i < n ==> !IsTerminator(t[i])
    ensures forall i :: n <= i < n + m ==> IsTerminator(t[i])
    ensures last <==> n == |t|
    ensures last ==> SplitOnTerminators(t) == [t]
    ensures !last ==> m >= 1 && SplitOnTerminators(t) == [t[..n]] + SplitOnTerminators(t[n + m..])
  {
    n := UntilTerminator(t);
    if n == |t| {
      last, m := true, 0;
      assert SplitOnTerminators(t) == [t];
    } else {
      last, m := false, TerminatorRun(t, n);
      var rest := SplitOnTerminators(t[n + m..]);
      assert SplitOnTerminators(t) == [t[..n]] + rest;
    }
  }

  function Concat(pieces: seq<string>): string
  {
    if pieces == [] then "" else pieces[0] + Concat(pieces[1..])
  }

  lemma ConcatCons(first: string, rest: seq<string>)
    ensures Concat([first] + rest) == first + Concat(rest)
  {
    assert ([first] + rest)[1..] == rest;
  }

  /** No piece holds a terminator. */
  lemma {:induction false} SplitOnTerminatorsNoTerminator(text: string)
    ensures forall k :: 0 <= k < |SplitOnTerminators(text)| ==> NoTerminator(SplitOnTerminators(text)[k])
    decreases |text|
  {
    var last, n, m := SplitOnTerminatorsStep(text);
    NoTerminatorPrefix(text, n);
    if last {
      assert text[..n] == text;
    } else {
      var rest := SplitOnTerminators(text[n + m..]);
      SplitOnTerminatorsNoTerminator(text[n + m..]);
      NoTerminatorCons(text[..n], rest);
    }
  }

  lemma NoTerminatorPrefix(text: string, n: nat)
    requires n <= |text|
    requires forall i :: 0 <= i < n ==> !IsTerminator(text[i])
    ensures NoTerminator(text[..n])
  {
    forall i | 0 <= i < n ensures !IsTerminator(text[..n][i]) {
      assert text[..n][i] == text[i];
    }
  }

  lemma NoTerminatorCons(first: string, rest: seq<string>)
    requires NoTerminator(first)
    requires forall k :: 0 <= k < |rest| ==> NoTerminator(rest[k])
    ensures forall k :: 0 <= k < |[first] + rest| ==> NoTerminator(([first] + rest)[k])
  {
    forall k | 0 <= k < |[first] + rest| ensures NoTerminator(([first] + rest)[k]) {
      if k > 0 {
        assert ([first] + rest)[k] == rest[k - 1];
      }
    }
  }

  /** Splitting drops the terminators and nothing else: the pieces put back
      together are the text without its terminators. */
  lemma {:induction false} SplitOnTerminatorsDropsOnlyTerminators(text: string)
    ensures Concat(SplitOnTerminators(text)) == Filter(text, NotTerminator)
    decreases |text|
  {
    var last, n, m := SplitOnTerminatorsStep(text);
    if last {
      FilterKeepsAll(text, NotTerminator);
      ConcatCons(text, []);
      assert text + "" == text;
    } else {
      var front, back := text[..n], text[n + m..];
      var rest := SplitOnTerminators(back);
      SplitOnTerminatorsDropsOnlyTerminators(back);
      ConcatCons(front, rest);
      FilterKeepsPrefix(text, NotTerminator, n);
      FilterDropsRange(text, NotTerminator, n, n + m);
      FilterThreeParts(text, NotTerminator, n, n + m);
    }
  }

  predicate NonEmpty(s: string) { s != [] }

  /** [s.strip() for s in pieces] */
  function StripAll(pieces: seq<string>): (r: seq<string>)
    ensures |r| == |pieces|
  {
    if pieces == [] then [] else [Strip(pieces[0])] + StripAll(pieces[1..])
  }

  /** Piece k of the result is piece k of the input, stripped. */
  lemma StripAllContents(pieces: seq<string>)
    ensures forall k :: 0 <= k < |pieces| ==> StripAll(pieces)[k] == Strip(pieces[k])
  {
    forall k | 0 <= k < |pieces| ensures StripAll(pieces)[k] == Strip(pieces[k]) {
      StripAllAt(pieces, k);
    }
  }

  lemma {:induction false} StripAllAt(pieces: seq<string>, k: nat)
    requires k < |pieces|
    ensures StripAll(pieces)[k] == Strip(pieces[k])
  {
    if k > 0 {
      StripAllAt(pieces[1..], k - 1);
      assert pieces[1..][k - 1] == pieces[k];
    }
  }

  /** Stripping keeps a piece free of terminators. */
  lemma {:induction false} StripAllNoTerminator(pieces: seq<string>)
    requires forall k :: 0 <= k < |pieces| ==> NoTerminator(pieces[k])
    ensures forall k :: 0 <= k < |pieces| ==> NoTerminator(StripAll(pieces)[k]) && Stripped(StripAll(pieces)[k])
  {
    if pieces != [] {
      StripAllNoTerminator(pieces[1..]);
      var a, b := StripSlice(pieces[0]);
      assert forall i :: 0 <= i < |Strip(pieces[0])| ==> Strip(pieces[0])[i] == pieces[0][a + i];
      forall k | 1 <= k < |pieces| ensures NoTerminator(StripAll(pieces)[k]) && Stripped(StripAll(pieces)[k]) {
        assert StripAll(pieces)[k] == StripAll(pieces[1..])[k - 1];
        assert pieces[1..][k - 1] == pieces[k];
      }
    }
  }

  /** A text is a sentence exactly when it is one of the pieces, stripped,
      and not empty: no non-blank piece is lost. */
  lemma SentenceSplitterComplete(text: string, s: string)
    ensures s in SentenceSplitter(text) <==>
      s != [] && exists k :: 0 <= k < |SplitOnTerminators(text)| && s == Strip(SplitOnTerminators(text)[k])
  {
    var pieces := SplitOnTerminators(text);
    var stripped := StripAll(pieces);
    FilterMembership(stripped, NonEmpty, s);
    assert SentenceSplitter(text) == Filter(stripped, NonEmpty);
    assert NonEmpty(s) <==> s != [];
    if s in stripped {
      var k :| 0 <= k < |stripped| && stripped[k] == s;
      StripAllAt(pieces, k);
    }
    if exists k :: 0 <= k < |pieces| && s == Strip(pieces[k]) {
      var k :| 0 <= k < |pieces| && s == Strip(pieces[k]);
      StripAllAt(pieces, k);
      assert s in stripped;
    }
  }

  /** sentence_splitter: the stripped pieces that are not empty. */
  function SentenceSplitter(text: string): (sentences: seq<string>)
    ensures forall k :: 0 <= k < |sentences| ==>
      && sentences[k] != []
      && Stripped(sentences[k])
      && NoTerminator(sentences[k])
  {
    var pieces := SplitOnTerminators(text);
    SplitOnTerminatorsNoTerminator(text);
    StripAllNoTerminator(pieces);
    FilterFromInput(StripAll(pieces), NonEmpty);
    Filter(StripAll(pieces), NonEmpty)
  }

  /** The pieces occur in the text one after another, without overlapping,
      the first one starting at position k or later. */
  ghost predicate InOrderFrom(pieces: seq<string>, text: string, k: nat)
    decreases |pieces|
  {
    pieces == [] ||
    exists i, j :: k <= i <= j <= |text| && text[i..j] == pieces[0] && InOrderFrom(pieces[1..], text, j)
  }

  ghost predicate InOrder(pieces: seq<string>, text: string)
  {
    InOrderFrom(pieces, text, 0)
  }

  lemma InOrderEarlier(pieces: seq<string>, text: string, k: nat, from: nat)
    requires from <= k && InOrderFrom(pieces, text, k)
    ensures InOrderFrom(pieces, text, from)
  {
    if pieces != [] {
      var i, j :| k <= i <= j <= |text| && text[i..j] == pieces[0] && InOrderFrom(pieces[1..], text, j);
      assert from <= i;
    }
  }

  lemma InOrderCons(piece: string, rest: seq<string>, text: string, k: nat, i: nat, j: nat)
    requires k <= i <= j <= |text| && text[i..j] == piece && InOrderFrom(rest, text, j)
    ensures InOrderFrom([piece] + rest, text, k)
  {
    assert ([piece] + rest)[0] == piece;
    assert ([piece] + rest)[1..] == rest;
  }

  /** The pieces of the text from position k on occur in order from k. */
  lemma {:induction false} SplitOnTerminatorsInOrderFrom(text: string, k: nat)
    requires k <= |text|
    ensures InOrderFrom(SplitOnTerminators(text[k..]), text, k)
    decreases |text| - k
  {
    var t := text[k..];
    var last, n, m := SplitOnTerminatorsStep(t);
    if last {
      InOrderWhole(SplitOnTerminators(t), text, k);
    } else {
      var next := k + n + m;
      var rest := SplitOnTerminators(text[next..]);
      SuffixOfSuffix(text, k, next);
      SplitOnTerminatorsInOrderFrom(text, next);
      InOrderFront(SplitOnTerminators(t), rest, text, k, n, next);
    }
  }

  /** The rest of the text from k, as a single piece, is in order from k. */
  lemma InOrderWhole(all: seq<string>, text: string, k: nat)
    requires k <= |text| && all == [text[k..]]
    ensures InOrderFrom(all, text, k)
  {
    assert text[k..|text|] == text[k..];
    InOrderCons(text[k..], [], text, k, k, |text|);
    assert [text[k..]] + [] == all;
  }

  /** A first piece that is the text from k on for n characters, followed by
      pieces in order from some later position, is in order from k. */
  lemma InOrderFront(all: seq<string>, rest: seq<string>, text: string, k: nat, n: nat, next: nat)
    requires k + n <= next <= |text|
    requires all == [text[k..][..n]] + rest
    requires InOrderFrom(rest, text, next)
    ensures InOrderFrom(all, text, k)
  {
    SliceOfSlice(text, k, |text|, 0, n);
    assert text[k..] == text[k..|text|];
    InOrderEarlier(rest, text, next, k + n);
    InOrderCons(text[k..k + n], rest, text, k, k, k + n);
  }

  lemma SplitOnTerminatorsInOrder(text: string)
    ensures InOrder(SplitOnTerminators(text), text)
  {
    SplitOnTerminatorsInOrderFrom(text, 0);
    assert text[0..] == text;
  }

  lemma {:induction false} StripInOrder(pieces: seq<string>, text: string, k: nat)
    requires InOrderFrom(pieces, text, k)
    ensures InOrderFrom(StripAll(pieces), text, k)
    decreases |pieces|
  {
    if pieces != [] {
      var i, j :| k <= i <= j <= |text| && text[i..j] == pieces[0] && InOrderFrom(pieces[1..], text, j);
      var a, b := StripSlice(pieces[0]);
      var rest := StripAll(pieces[1..]);
      StripInOrder(pieces[1..], text, j);
      SlicedInOrder(pieces[0], rest, text, k, i, j, a, b);
      StripAllCons(pieces);
    }
  }

  /** A piece of the text can be trimmed to any sub-slice without losing its place. */
  lemma SlicedInOrder(piece: string, rest: seq<string>, text: string, k: nat, i: nat, j: nat, a: nat, b: nat)
    requires k <= i <= j <= |text| && text[i..j] == piece && InOrderFrom(rest, text, j)
    requires a <= b <= |piece|
    ensures InOrderFrom([piece[a..b]] + rest, text, k)
  {
    SliceOfSlice(text, i, j, a, b);
    InOrderEarlier(rest, text, j, i + b);
    InOrderCons(piece[a..b], rest, text, k, i + a, i + b);
  }

  lemma StripAllCons(pieces: seq<string>)
    requires pieces != []
    ensures StripAll(pieces) == [Strip(pieces[0])] + StripAll(pieces[1..])
  {
  }

  lemma {:induction false} FilterInOrder(pieces: seq<string>, text: string, p: string -> bool, k: nat)
    requires InOrderFrom(pieces, text, k)
    ensures InOrderFrom(Filter(pieces, p), text, k)
    decreases |pieces|
  {
    if pieces != [] {
      var i, j :| k <= i <= j <= |text| && text[i..j] == pieces[0] && InOrderFrom(pieces[1..], text, j);
      var rest := Filter(pieces[1..], p);
      FilterInOrder(pieces[1..], text, p, j);
      if p(pieces[0]) {
        assert Filter(pieces, p) == [pieces[0]] + rest;
        InOrderCons(pieces[0], rest, text, k, i, j);
      } else {
        assert Filter(pieces, p) == rest;
        InOrderEarlier(rest, text, j, k);
      }
    }
  }

  /** The sentences appear in the text in the order they are returned, each a
      contiguous piece of it, none overlapping the next. */
  lemma SentenceSplitterInOrder(text: string)
    ensures InOrder(SentenceSplitter(text), text)
  {
    var pieces := SplitOnTerminators(text);
    SplitOnTerminatorsInOrder(text);
    StripInOrder(pieces, text, 0);
    FilterInOrder(StripAll(pieces), text, NonEmpty, 0);
  }

  /** A document: its text (page_content) and its metadata dictionary. */
  datatype Document = Document(content: string, metadata: map<string, string>)

  /** Chunks shorter than this many characters plus one are dropped. */
  const MinChunkLength: nat := 20

  /** Default number of sentences per chunk of create_sentence_chunks. */
  const DefaultSentencesPerChunk: nat := 3

  /** The chunk texts that are kept. */
  predicate LongChunk(t: string) { |t| > MinChunkLength }

  function Content(c: Document): string { c.content }

  /** '. '.join(group) + '.' */
  function ChunkText(group: seq<string>): (t: string)
    ensures t != [] && t[|t| - 1] == '.'
  {
    Join(group, ". ") + "."
  }

  function Flatten<T>(groups: seq<seq<T>>): seq<T>
  {
    if groups == [] then [] else groups[0] + Flatten(groups[1..])
  }

  /** [sentences[i:i+k] for i in range(0, len(sentences), k)] for k >= 1. */
  function Groups<T>(ss: seq<T>, k: nat): (g: seq<seq<T>>)
    requires k >= 1
    ensures g == [] <==> ss == []
    ensures forall i :: 0 <= i < |g| ==> 1 <= |g[i]| <= k
    ensures forall i :: 0 <= i < |g| - 1 ==> |g[i]| == k
    decreases |ss|
  {
    if ss == [] then []
    else if |ss| <= k then [ss]
    else [ss[..k]] + Groups(ss[k..], k)
  }

  /** There are ceil(n / k) groups of n sentences. */
  lemma {:induction false} GroupsCount<T>(ss: seq<T>, k: nat)
    requires k >= 1
    ensures var g := Groups(ss, k); g != [] ==> (|g| - 1) * k < |ss| <= |g| * k
    decreases |ss|
  {
    if |ss| > k {
      var rest := Groups(ss[k..], k);
      GroupsCount(ss[k..], k);
      assert Groups(ss, k) == [ss[..k]] + rest;
      assert (|rest| + 1) * k == |rest| * k + k;
      assert (|rest| + 1 - 1) * k == |rest| * k;
    }
  }

  /** The groups are consecutive runs that together give back the sentences. */
  lemma {:induction false} GroupsFlatten<T>(ss: seq<T>, k: nat)
    requires k >= 1
    ensures Flatten(Groups(ss, k)) == ss
    decreases |ss|
  {
    if |ss| > k {
      GroupsFlatten(ss[k..], k);
      assert ss == ss[..k] + ss[k..];
    }
  }

  /** The chunks a run of groups yields: one per group whose text is longer
      than MinChunkLength, with a copy of the document's metadata. */
  function Emit(groups: seq<seq<string>>, metadata: map<string, string>): (chunks: seq<Document>)
    ensures |chunks| <= |groups|
  {
    if groups == [] then []
    else
      var text := ChunkText(groups[0]);
      (if |text| > MinChunkLength then [Document(text, metadata)] else []) + Emit(groups[1..], metadata)
  }

  /** Every emitted chunk is long enough, carries the metadata, and is the
      text of one of the groups. */
  lemma {:induction false} EmitOrigin(groups: seq<seq<string>>, metadata: map<string, string>, c: Document)
    requires c in Emit(groups, metadata)
    ensures c.metadata == metadata && |c.content| > MinChunkLength
    ensures exists g :: g in groups && c.content == ChunkText(g)
  {
    var text := ChunkText(groups[0]);
    var head := if |text| > MinChunkLength then [Document(text, metadata)] else [];
    if c !in head {
      EmitOrigin(groups[1..], metadata, c);
      var g :| g in groups[1..] && c.content == ChunkText(g);
      assert g in groups;
    }
  }

  /** The chunks of a run of groups are exactly the texts of the groups that
      are long enough, in group order, each with the metadata. */
  lemma {:induction false} EmitExactly(groups: seq<seq<string>>, metadata: map<string, string>)
    ensures MapSeq(Emit(groups, metadata), Content) == Filter(MapSeq(groups, ChunkText), LongChunk)
  {
    if groups != [] {
      EmitExactly(groups[1..], metadata);
      var text := ChunkText(groups[0]);
      var head := if LongChunk(text) then [Document(text, metadata)] else [];
      var rest := Emit(groups[1..], metadata);
      var texts := MapSeq(groups, ChunkText);
      assert Emit(groups, metadata) == head + rest;
      MapSeqAppend(head, rest, Content);
      assert texts[0] == text && texts[1..] == MapSeq(groups[1..], ChunkText);
      FilterCons(texts, LongChunk);
      if LongChunk(text) {
        assert MapSeq(head, Content) == [text];
      } else {
        assert head == [];
      }
    }
  }

  /** Every group whose text is long enough yields its chunk. */
  lemma EmitComplete(groups: seq<seq<string>>, metadata: map<string, string>, g: seq<string>)
    requires g in groups && LongChunk(ChunkText(g))
    ensures Document(ChunkText(g), metadata) in Emit(groups, metadata)
  {
    EmitExactly(groups, metadata);
    var texts := MapSeq(groups, ChunkText);
    var i :| 0 <= i < |groups| && groups[i] == g;
    assert texts[i] == ChunkText(g);
    FilterMembership(texts, LongChunk, ChunkText(g));
    var cs := Emit(groups, metadata);
    var contents := MapSeq(cs, Content);
    var j :| 0 <= j < |contents| && contents[j] == ChunkText(g);
    assert cs[j] in cs;
    EmitOrigin(groups, metadata, cs[j]);
    assert cs[j] == Document(ChunkText(g), metadata);
  }

  /** The chunks of one document; a negative sentences_per_chunk gives an
      empty range and so no chunks. */
  function DocumentChunks(doc: Document, k: int): (chunks: seq<Document>)
    requires k != 0
    ensures k < 0 ==> chunks == []
  {
    if k < 0 then [] else Emit(Groups(SentenceSplitter(doc.content), k), doc.metadata)
  }

  /** With the default of three sentences per chunk, a document with n
      sentences yields at most ceil(n / 3) chunks. */
  lemma DefaultChunkCount(doc: Document)
    ensures |DocumentChunks(doc, DefaultSentencesPerChunk)| * 3 < |SentenceSplitter(doc.content)| + 3
  {
    DocumentChunksAtMostCeil(doc, DefaultSentencesPerChunk);
  }

  /** A document with n sentences yields at most ceil(n / k) chunks:
      |chunks| * k < n + k. */
  lemma DocumentChunksAtMostCeil(doc: Document, k: int)
    requires k >= 1
    ensures |DocumentChunks(doc, k)| * k < |SentenceSplitter(doc.content)| + k
  {
    var n := |SentenceSplitter(doc.content)|;
    var g := Groups(SentenceSplitter(doc.content), k);
    var c := |DocumentChunks(doc, k)|;
    assert c <= |g|;
    GroupsCount(SentenceSplitter(doc.content), k);
    if g != [] {
      assert (|g| - 1) * k < n;
      MultiplyMonotone(c, |g|, k);
      assert |g| * k == (|g| - 1) * k + k;
    }
  }

  lemma MultiplyMonotone(a: nat, b: nat, k: nat)
    requires a <= b
    ensures a * k <= b * k
  {
    assert b * k - a * k == (b - a) * k;
  }

  /** The chunks of the documents, document by document. */
  function ChunksOf(docs: seq<Document>, k: int): seq<Document>
    requires k != 0
  {
    if docs == [] then []
    else ChunksOf(docs[..|docs| - 1], k) + DocumentChunks(docs[|docs| - 1], k)
  }

  /** create_sentence_chunks; sentences_per_chunk = 0 makes range() raise. */
  method CreateSentenceChunks(documents: seq<Document>, sentencesPerChunk: int) returns (chunks: seq<Document>)
    requires sentencesPerChunk != 0
    ensures chunks == ChunksOf(documents, sentencesPerChunk)
  {
    var k := sentencesPerChunk;
    chunks := [];
    for d := 0 to |documents|
      invariant chunks == ChunksOf(documents[..d], k)
    {
      var doc := documents[d];
      ChunksOfPrefix(documents, d, k);
      var sentences := SentenceSplitter(doc.content);
      if k > 0 {
        var docChunks := ChunkSentences(sentences, k, doc.metadata);
        chunks := chunks + docChunks;
      }
    }
    assert documents[..|documents|] == documents;
  }

  /** The inner loop of create_sentence_chunks over one document's sentences:
      a chunk per run of k sentences whose text is long enough, in order. */
  method ChunkSentences(sentences: seq<string>, k: nat, metadata: map<string, string>)
    returns (docChunks: seq<Document>)
    requires k >= 1
    ensures docChunks == Emit(Groups(sentences, k), metadata)
  {
    var n := |sentences|;
    docChunks := [];
    assert sentences[0..] == sentences;
    // i runs over 0, k, 2k, ... as range(0, n, k) does; the last step
    // stops at n instead of past it, which ends the loop all the same.
    var i := 0;
    while i < n
      invariant 0 <= i <= n
      invariant docChunks + Emit(Groups(sentences[i..], k), metadata) == Emit(Groups(sentences, k), metadata)
      decreases n - i
    {
      var end := if i + k <= n then i + k else n;
      var chunkText := ChunkText(sentences[i..end]);
      ghost var done := docChunks;
      ghost var after := Emit(Groups(sentences[end..], k), metadata);
      ghost var emitted := if |chunkText| > MinChunkLength then [Document(chunkText, metadata)] else [];
      EmitStep(sentences, i, k, metadata);
      assert Emit(Groups(sentences[i..], k), metadata) == emitted + after;
      ConcatAssociative(docChunks, emitted, after);
      if |chunkText| > MinChunkLength {
        docChunks := docChunks + [Document(chunkText, metadata)];
      }
      assert docChunks == done + emitted;
      i := end;
    }
    assert sentences[n..] == [];
  }

  /** The groups from position i on: the run of at most k sentences at i,
      then the groups after it. */
  lemma GroupsStep<T>(ss: seq<T>, i: nat, k: nat)
    requires k >= 1 && i < |ss|
    ensures var end := if i + k <= |ss| then i + k else |ss|;
      Groups(ss[i..], k) == [ss[i..end]] + Groups(ss[end..], k)
  {
    var end := if i + k <= |ss| then i + k else |ss|;
    if i + k < |ss| {
      assert ss[i..][..k] == ss[i..end];
      assert ss[i..][k..] == ss[end..];
    } else {
      assert ss[end..] == [];
      assert ss[i..end] == ss[i..];
      assert |ss[i..]| <= k;
    }
  }

  /** One step of the chunking loop: the chunks of the groups from position
      i on are the chunk of the run at i, if long enough, then the rest. */
  lemma EmitStep(ss: seq<string>, i: nat, k: nat, metadata: map<string, string>)
    requires k >= 1 && i < |ss|
    ensures var end := if i + k <= |ss| then i + k else |ss|;
      var text := ChunkText(ss[i..end]);
      Emit(Groups(ss[i..], k), metadata)
      == (if |text| > MinChunkLength then [Document(text, metadata)] else []) + Emit(Groups(ss[end..], k), metadata)
  {
    var end := if i + k <= |ss| then i + k else |ss|;
    GroupsStep(ss, i, k);
    var later := Groups(ss[end..], k);
    assert ([ss[i..end]] + later)[1..] == later;
    assert ([ss[i..end]] + later)[0] == ss[i..end];
  }

  /** Chunks of a longer document list: those of the first documents, then
      those of the rest, so chunks follow document order. */
  lemma {:induction false} ChunksOfAppend(d1: seq<Document>, d2: seq<Document>, k: int)
    requires k != 0
    ensures ChunksOf(d1 + d2, k) == ChunksOf(d1, k) + ChunksOf(d2, k)
    decreases |d2|
  {
    if d2 == [] {
      assert d1 + d2 == d1;
    } else {
      var n := |d2| - 1;
      var init, last := d2[..n], d2[n];
      assert d2 == init + [last];
      assert d1 + d2 == (d1 + init) + [last];
      ChunksOfAppend(d1, init, k);
      ChunksOfSnoc(d1 + init, last, k);
      ChunksOfSnoc(init, last, k);
      var A, B, C := ChunksOf(d1, k), ChunksOf(init, k), DocumentChunks(last, k);
      assert ChunksOf(d1 + d2, k) == (A + B) + C;
      assert ChunksOf(d2, k) == B + C;
      ConcatAssociative(A, B, C);
    }
  }


  /** One more document adds its chunks at the end. */
  lemma ChunksOfSnoc(docs: seq<Document>, doc: Document, k: int)
    requires k != 0
    ensures ChunksOf(docs + [doc], k) == ChunksOf(docs, k) + DocumentChunks(doc, k)
  {
    assert (docs + [doc])[..|docs|] == docs;
  }

  lemma ChunksOfPrefix(docs: seq<Document>, d: nat, k: int)
    requires k != 0 && d < |docs|
    ensures ChunksOf(docs[..d + 1], k) == ChunksOf(docs[..d], k) + DocumentChunks(docs[d], k)
  {
    assert docs[..d + 1][..d] == docs[..d];
  }

  /** Every chunk is longer than MinChunkLength characters, carries the
      metadata of a document of the input, and is the text of one group of
      consecutive sentences of that document. */
  lemma {:induction false} ChunkOrigin(docs: seq<Document>, k: int, c: Document)
    requires k != 0 && c in ChunksOf(docs, k)
    ensures |c.content| > MinChunkLength
    ensures k >= 1
    ensures exists doc :: (doc in docs && c.metadata == doc.metadata
      && exists g :: g in Groups(SentenceSplitter(doc.content), k) && c.content == ChunkText(g))
  {
    var n := |docs| - 1;
    assert ChunksOf(docs, k) == ChunksOf(docs[..n], k) + DocumentChunks(docs[n], k);
    if c in ChunksOf(docs[..n], k) {
      ChunkOrigin(docs[..n], k, c);
      var doc :| doc in docs[..n] && c.metadata == doc.metadata
        && exists g :: g in Groups(SentenceSplitter(doc.content), k) && c.content == ChunkText(g);
      assert doc in docs;
    } else {
      assert docs[n] in docs;
      EmitOrigin(Groups(SentenceSplitter(docs[n].content), k), docs[n].metadata, c);
    }
  }

  /** Conversely, every run of sentences of an input document whose text is
      long enough becomes a chunk with that document's metadata. */
  lemma {:induction false} ChunksOfComplete(docs: seq<Document>, k: int, doc: Document, g: seq<string>)
    requires k >= 1 && doc in docs
    requires g in Groups(SentenceSplitter(doc.content), k) && LongChunk(ChunkText(g))
    ensures Document(ChunkText(g), doc.metadata) in ChunksOf(docs, k)
  {
    var c := Document(ChunkText(g), doc.metadata);
    EmitComplete(Groups(SentenceSplitter(doc.content), k), doc.metadata, g);
    assert c in DocumentChunks(doc, k);
    var i :| 0 <= i < |docs| && docs[i] == doc;
    ChunksOfAround(docs, k, i);
  }

  /** The chunks of the input are those of the documents before position i,
      then those of document i, then those of the documents after it. */
  lemma ChunksOfAround(docs: seq<Document>, k: int, i: nat)
    requires k != 0 && i < |docs|
    ensures ChunksOf(docs, k) == ChunksOf(docs[..i], k) + DocumentChunks(docs[i], k) + ChunksOf(docs[i + 1..], k)
  {
    var before, doc, after := docs[..i], docs[i], docs[i + 1..];
    assert docs == before + [doc] + after;
    ChunksOfSnoc(before, doc, k);
    ChunksOfAppend(before + [doc], after, k);
  }

}
