# Text scoring and retrieval helpers of ML-Weekly-Projects, in Dafny

This project models two small systems from the ML-Weekly-Projects repository.

The **AI-text detector** scores a text between 0 and 100, where higher means
more AI-like, and labels it. It combines four signals:

- the language model's perplexity, clamped and inverted;
- burstiness, the coefficient of variation of the sentence lengths;
- n-gram repetition and token diversity;
- a perplexity-variance score.

It combines them with configurable weights, then applies a threshold decision
that gives a label (AI-generated, Human-written, Uncertain) and a confidence
(high, medium, low). Beside the scorer sit:

- a per-sentence scorer;
- a prose/technical modality classifier;
- text cleaning, a three-word sentence filter and stylometric ratios.

The **RAG helpers** of the UN-SDG retrieval project are:

- whitespace cleaning;
- a regex sentence splitter and fixed-size sentence chunking of documents;
- word-set overlap scores (faithfulness, answer relevance);
- retrieval metrics (precision@k, recall@k, F1, MRR).

## Layout

There is one module per source file, plus two shared modules:

- `Common` holds Option, clipping, sums, mean and population variance, filter and distinct.
- `Text` holds Python's whitespace set, ASCII lower-casing, `str.split()`, `str.strip()`, `str.split(sep)`, `sep.join`, and the substitution of a regex run by a space.

The loops that mutate a result list are methods. Each is proved equal to a
specification function, and the properties are proved about that function:

- `CalculateSentencePerplexities`;
- `CountPatternMatches`;
- `CreateSentenceChunks` with its inner loop `ChunkSentences`;
- `CalculateSentenceScores`.

Everything else is pure functions and lemmas.

Outside calls are parameters of the model:

- The language model is two functions, a token count and a perplexity. Each returns `None` where the Python call raises.
- `nltk.sent_tokenize` is a function from text to sentences.
- The regex search of the modality patterns is a predicate `search(pattern, text)`. The 21 pattern strings are kept as data.
- `np.std`'s square root is any function that returns the non-negative square root (`IsSquareRoot`).

## Model

| member | source | states |
|---|---|---|
| Scoring.WeightedScore | AI-detector/app/services/scoring.py:46-51 | with non-negative weights summing to 1 and four sub-scores in [0,100], the combined score is in [0,100] |
| Scoring.WeightedScoreMonotone | AI-detector/app/services/scoring.py:46-51 | raising any sub-score never lowers the combined score |
| Scoring.WeightedScoreOfEqual | AI-detector/app/services/scoring.py:46-51 | with non-negative weights summing to 1, four equal sub-scores x combine to exactly x |
| Scoring.DefaultSettingsValid | AI-detector/app/core/config.py:19-26 | the default weights 0.4/0.2/0.2/0.2 are non-negative and sum to 1, and the human threshold 30 is below the AI threshold 70 |
| Scoring.Decide | AI-detector/app/services/scoring.py:54-62 | AI-generated iff score >= ai_threshold; Human-written iff score < ai_threshold and score <= human_threshold; Uncertain iff strictly between; confidence low iff Uncertain; high iff (AI-generated and score >= 85) or (Human-written and score <= 15) |
| Scoring.LabelMonotone | AI-detector/app/services/scoring.py:54-62 | a higher score never gives a more human label, for any thresholds |
| Scoring.DefaultConfidenceBands | AI-detector/app/services/scoring.py:54-62 | with the defaults: (AI, high) iff score >= 85; (AI, medium) iff 70 <= score < 85; (Uncertain, low) iff 30 < score < 70; (Human, medium) iff 15 < score <= 30; (Human, high) iff score <= 15 |
| Scoring.CalculateFinalScore | AI-detector/app/services/scoring.py:20-83 | perplexity, burstiness and repetition sub-scores are in [0,100]; raw burstiness is in [0,1] and raw repetition in [0,1); the score is the weighted sum of the sub-scores; it is in [0,100] under valid weights and a variance score in [0,100]; label and confidence obey the threshold rules |
| Scoring.UniformDistinctTextMetrics | AI-detector/app/services/scoring.py:40-42 | a text with no repeated word has repetition sub-score 0; sentences of equal length give burstiness sub-score 100 |
| Scoring.CalculateSentenceScores | AI-detector/app/services/scoring.py:86-107 | one entry per sentence the perplexity step reports, in its order, with its unchanged text; score = normalize_perplexity(perplexity) with range 5..100; every score in [0,100]; the texts are exactly the scorable input sentences in input order |
| Perplexity.NormalizePerplexity | AI-detector/app/services/perplexity.py:87-104 | for min < max the result is in [0,100]; 100 at or below min_ppl; 0 at or above max_ppl |
| Perplexity.NormalizePerplexityAntitone | AI-detector/app/services/perplexity.py:99-102 | a higher perplexity never gives a higher score |
| Perplexity.NormalizePerplexityStrict | AI-detector/app/services/perplexity.py:102 | strictly decreasing inside [min_ppl, max_ppl] |
| Perplexity.DefaultCalibrationExamples | AI-detector/tests/test_perplexity.py:44-56 | with 5..100, perplexity 10 scores in [80,100], 90 in [0,20], 50 in [40,60] |
| Perplexity.CalculateSentencePerplexities | AI-detector/app/services/perplexity.py:44-84 | the loop builds exactly the list of the specification ScoredSentences: skips on a raised tokenization, fewer than 3 tokens, or a raised scoring, otherwise appends (sentence, perplexity) |
| Perplexity.ScoredSentencesAreScorableSubsequence | AI-detector/app/services/perplexity.py:58-78 | the reported texts are the input filtered by "scorable", so an order-preserving subsequence of the input |
| Perplexity.ScoredSentencesCarryScore | AI-detector/app/services/perplexity.py:73-78 | each entry's text is an input sentence that is scorable, and its perplexity is the scorer's value for it |
| Perplexity.ReportedIffScorable | AI-detector/app/services/perplexity.py:64-66 | a sentence is reported iff it is in the input, tokenizes to at least 3 tokens and scores without raising |
| Burstiness.CalculateBurstiness | app/services/burstiness.py:10-43 | the result is in [0,1]; fewer than two sentences give exactly 0.5 |
| Burstiness.UniformLengthsGiveZero | app/services/burstiness.py:26-39 | sentences all of one word count give burstiness 0 |
| Burstiness.VariedLengthsPositive | app/services/burstiness.py:20-39 | two sentences of different word counts give a burstiness above 0, so varied lengths score above uniform ones, which give 0 |
| Burstiness.NoWordsGiveZero | app/services/burstiness.py:33-36 | when no sentence has a word (mean 0) burstiness is 0 |
| Burstiness.BurstinessDependsOnCountsOnly | app/services/burstiness.py:26-30 | two sentence lists whose word counts are the same multiset have the same burstiness |
| Burstiness.BurstinessPermutation | app/services/burstiness.py:26-30 | reordering the sentences leaves burstiness unchanged |
| Burstiness.NormalizeBurstiness | app/services/burstiness.py:46-58 | 100 * (1 - b) lies in [0,100] for b in [0,1] |
| Burstiness.NormalizeBurstinessAntitone | app/services/burstiness.py:56 | more burstiness never gives a higher score |
| Repetition.NGrams | app/services/repetition.py:27 | len(words) - n + 1 n-grams, each the slice words[i:i+n] of length n; none when there are fewer than n words |
| Repetition.NgramRepetition | app/services/repetition.py:11-41 | in [0,1); 0 with fewer than n words; 0 iff all n-grams are distinct |
| Repetition.TokenDiversity | app/services/repetition.py:44-63 | 1.0 for a text without words; otherwise in (0,1]; 1.0 iff no word repeats |
| Repetition.RepetitionScore | app/services/repetition.py:66-91 | 0.3 bigram + 0.3 trigram + 0.4 (1 - diversity) lies in [0,1) |
| Repetition.NormalizeRepetition | app/services/repetition.py:94-105 | 100 * r lies in [0,100] for r in [0,1] |
| Repetition.NormalizeRepetitionMonotone | app/services/repetition.py:94-105 | a higher repetition ratio never gives a lower normalised score |
| Repetition.DistinctWordsDistinctNGrams | app/services/repetition.py:27-39 | when no word repeats, no n-gram repeats |
| Repetition.DistinctWordsScoreZero | app/services/repetition.py:78-84 | a text in which no word repeats has repetition score 0 |
| Repetition.CaseInsensitive | app/services/repetition.py:21 | texts that differ only in letter case have equal bigram, trigram, diversity and combined scores |
| Modality.MatchCount | AI-detector/app/services/modality.py:49-51 | the number of matching patterns is at most the number of patterns |
| Modality.MatchCountIsFilter | AI-detector/app/services/modality.py:49-51 | the count equals the number of patterns the search finds, each counted once |
| Modality.CountPatternMatches | AI-detector/app/services/modality.py:48-51 | the counting loop computes MatchCount |
| Modality.TwoMatchesCount | AI-detector/app/services/modality.py:49-51 | two distinct matching patterns make the count at least 2 |
| Modality.OneMatchCounts | AI-detector/app/services/modality.py:49-51 | one matching pattern makes the count at least 1 |
| Modality.NoMatchNoCount | AI-detector/app/services/modality.py:49-51 | no matching pattern gives count 0 |
| Modality.LinesNeverEmpty | AI-detector/app/services/modality.py:37-40 | text.split('\n') has at least one line and joins back to the text, so the zero-line return cannot run |
| Modality.SymbolDensity | AI-detector/app/services/modality.py:43-44 | symbols per word is non-negative and 0 when there are no words |
| Modality.IndentDensity | AI-detector/app/services/modality.py:42-56 | indented lines per line is in [0,1]; 0 iff no line is indented; 1 iff every line is |
| Modality.Classify | AI-detector/app/services/modality.py:58-76 | TECHNICAL iff matches >= 2, or matches >= 1 and symbol density > 0.3, or symbol density > 0.5, or indent density > 0.4 and symbol density > 0.2; TECHNICAL confidence in [0.5,1], capped at 1; PROSE confidence exactly 1 with the prose reason |
| Modality.DetectModality | AI-detector/app/services/modality.py:12-76 | the result is the classification of the text's counts: the TECHNICAL iff rule over the 21 patterns; confidence in [0.5,1] with the technical reason; PROSE is exactly (PROSE, 1.0, prose reason) |
| Modality.TwoPatternsSuffice | AI-detector/app/services/modality.py:58-59 | a text on which two of the code patterns match is TECHNICAL |
| Modality.ClassifyMonotone | AI-detector/app/services/modality.py:58-68 | more matches or higher densities never turn TECHNICAL into PROSE, nor lower its confidence |
| Modality.NoEvidenceIsProse | AI-detector/app/services/modality.py:58-76 | a text with no pattern match and no symbol is PROSE with confidence 1 |
| DetectorPreprocessing.CleanText | AI-detector/app/services/preprocessing.py:18-27 | the result has no \r, \n or \t; no two consecutive whitespace characters, and only ' ' as whitespace; no leading or trailing whitespace |
| DetectorPreprocessing.QuoteReplacementIsIdentity | AI-detector/app/services/preprocessing.py:25 | as written, each quote replacement maps a character to itself and changes nothing |
| DetectorPreprocessing.CleanTextIdempotent | AI-detector/app/services/preprocessing.py:18-27 | cleaning a cleaned text changes nothing |
| DetectorPreprocessing.CleanTextKeepsWords | AI-detector/app/services/preprocessing.py:21-27 | cleaning keeps the text's whitespace-separated words |
| DetectorPreprocessing.TokenizeSentences | AI-detector/app/services/preprocessing.py:30-44 | every kept sentence has at least 3 words |
| DetectorPreprocessing.TokenizeSentencesKeeps | AI-detector/app/services/preprocessing.py:42 | a sentence is kept iff the splitter returns it and it has at least 3 words; the filter keeps splitter order across any split of its output |
| DetectorPreprocessing.PreprocessText | AI-detector/app/services/preprocessing.py:47-51 | the cleaned text is collapsed and stripped and has the same words as the input; a sentence is returned iff the splitter returns it for the cleaned text and it has at least 3 words |
| DetectorPreprocessing.LowerAll | AI-detector/app/services/preprocessing.py:73 | lower-cases each word, keeping positions |
| DetectorPreprocessing.ExtractStyleFeatures | AI-detector/app/services/preprocessing.py:54-86 | all-zero record when there are no words or no sentences; otherwise variance >= 0; lexical diversity in (0,1] and 1 iff no lower-cased word repeats; stopword ratio in [0,1] and 0 iff no word is one of the 17 stopwords |
| DetectorPreprocessing.AverageSentenceLengthBounds | AI-detector/app/services/preprocessing.py:68-69 | the average sentence length lies between any lower and upper bound of the sentence lengths |
| RagPreprocessing.CleanText | RAG_UN_SDG/src/preprocessing.py:3-8 | a non-string gives ""; the result is collapsed and stripped and has no \r or \n |
| RagPreprocessing.LineBreakReplacementIsIdentity | RAG_UN_SDG/src/preprocessing.py:6-7 | after the whitespace collapse the \r/\n replacements change nothing |
| RagPreprocessing.CleanTextIdempotent | RAG_UN_SDG/src/preprocessing.py:3-8 | cleaning a cleaned text changes nothing |
| RagPreprocessing.CleanTextKeepsWords | RAG_UN_SDG/src/preprocessing.py:6-8 | cleaning a string keeps its words |
| RagPipeline.Coverage | RAG_UN_SDG/src/rag_pipeline.py:13 | shared words / max(1, base size) is in [0,1]; 0 for an empty base; 0 iff no shared word; 1 iff the base is non-empty and contained in the other set |
| RagPipeline.OverlapCard | RAG_UN_SDG/src/rag_pipeline.py:13 | the intersection is no larger than the base, and equal in size iff the base is contained in the other set |
| RagPipeline.FaithfulnessScore | RAG_UN_SDG/src/rag_pipeline.py:10-13 | in [0,1]; 0 for an answer without words; 1 iff the answer has words and all of them are in the context |
| RagPipeline.FaithfulnessZeroIff | RAG_UN_SDG/src/rag_pipeline.py:10-13 | 0 iff the answer and the context share no word |
| RagPipeline.AnswerRelevanceScore | RAG_UN_SDG/src/rag_pipeline.py:15-18 | in [0,1]; 0 for a query without words; 1 iff the query has words and all of them are in the answer |
| RagPipeline.LowerKeepsWordCount | RAG_UN_SDG/src/rag_pipeline.py:11 | lower-casing keeps the number of words |
| RagPipeline.ScoresDependOnWordSetsOnly | RAG_UN_SDG/src/rag_pipeline.py:11-17 | both scores depend only on the word sets, so duplicates and order do not matter |
| RagPipeline.CaseInsensitive | RAG_UN_SDG/src/rag_pipeline.py:11-12 | texts equal up to letter case have the same word set |
| RetrieverEval.Prefix | RAG_UN_SDG/src/retriever_eval.py:4 | Python's ids[:k]: the first min(k, len) ids for k >= 0, all but the last -k for k < 0 |
| RetrieverEval.PrecisionAtK | RAG_UN_SDG/src/retriever_eval.py:3-4 | 1/k if the target is in ids[:k], else 0, also when the list is shorter than k; in [0,1] for k >= 1 |
| RetrieverEval.ShortListPrecision | RAG_UN_SDG/src/retriever_eval.py:3-4 | a list shorter than k that holds the target still gives 1/k |
| RetrieverEval.RecallAtK | RAG_UN_SDG/src/retriever_eval.py:6-7 | always 0 or 1; 1 iff the target is in ids[:k] |
| RetrieverEval.RecallIsKTimesPrecision | RAG_UN_SDG/src/retriever_eval.py:3-7 | recall = k * precision |
| RetrieverEval.F1ScoreAtK | RAG_UN_SDG/src/retriever_eval.py:9-12 | 0 when p + r = 0; in [0,1] for p, r in [0,1] |
| RetrieverEval.F1Symmetric | RAG_UN_SDG/src/retriever_eval.py:12 | F1 is symmetric in precision and recall |
| RetrieverEval.F1OfEqualScores | RAG_UN_SDG/src/retriever_eval.py:12 | F1(p, p) = p for p > 0 |
| RetrieverEval.MrrFrom | RAG_UN_SDG/src/retriever_eval.py:14-18 | the scan from a given rank gives at most 1/rank; 0 iff the target is absent |
| RetrieverEval.Mrr | RAG_UN_SDG/src/retriever_eval.py:14-18 | in [0,1]; 0 iff the target is absent; 1 iff the first id is the target |
| RetrieverEval.FirstIndex | RAG_UN_SDG/src/retriever_eval.py:15-16 | the position of the first occurrence of the target |
| RetrieverEval.MrrFromFirstIndex | RAG_UN_SDG/src/retriever_eval.py:15-17 | the scan from rank r returns 1/(first position + r) |
| RetrieverEval.MrrIsReciprocalRank | RAG_UN_SDG/src/retriever_eval.py:14-18 | mrr = 1/(1-based position of the first occurrence) when present |
| RagChunking.SplitOnTerminators | RAG_UN_SDG/src/chunking.py:9 | re.split(r'[.!?]+') gives at least one piece, and no piece holds '.', '!' or '?' |
| RagChunking.SplitOnTerminatorsDropsOnlyTerminators | RAG_UN_SDG/src/chunking.py:9 | the pieces concatenated are the text without its terminators |
| RagChunking.SplitOnTerminatorsInOrder | RAG_UN_SDG/src/chunking.py:9 | the pieces occur in the text one after another |
| RagChunking.StripAll | RAG_UN_SDG/src/chunking.py:10 | strips every piece, keeping the number of pieces |
| RagChunking.StripAllContents | RAG_UN_SDG/src/chunking.py:10 | piece k of the result is piece k of the input, stripped |
| RagChunking.StripAllAt | RAG_UN_SDG/src/chunking.py:10 | the same for one given position k |
| RagChunking.StripAllNoTerminator | RAG_UN_SDG/src/chunking.py:10 | stripped pieces stay free of terminators and are stripped |
| RagChunking.StripInOrder | RAG_UN_SDG/src/chunking.py:10 | stripping keeps the pieces in text order |
| RagChunking.FilterInOrder | RAG_UN_SDG/src/chunking.py:10 | dropping pieces keeps the rest in text order |
| RagChunking.SentenceSplitter | RAG_UN_SDG/src/chunking.py:8-10 | every sentence is non-empty, stripped and has no '.', '!' or '?' |
| RagChunking.SentenceSplitterComplete | RAG_UN_SDG/src/chunking.py:9-10 | a text is a sentence iff it is non-empty and is some piece of re.split, stripped: no non-blank piece is lost and nothing else appears |
| RagChunking.SentenceSplitterInOrder | RAG_UN_SDG/src/chunking.py:8-10 | the sentences occur in the text in the order returned |
| RagChunking.ChunkText | RAG_UN_SDG/src/chunking.py:17 | the joined chunk text is non-empty and ends with '.' |
| RagChunking.Groups | RAG_UN_SDG/src/chunking.py:16-17 | the slices sentences[i:i+k] for i in range(0, n, k): none iff no sentences; ceil(n/k) of them; each of 1..k sentences, all but the last exactly k |
| RagChunking.GroupsFlatten | RAG_UN_SDG/src/chunking.py:16-17 | the groups concatenated give back the sentences, so they are consecutive runs in order |
| RagChunking.Emit | RAG_UN_SDG/src/chunking.py:16-24 | at most one chunk per group |
| RagChunking.EmitOrigin | RAG_UN_SDG/src/chunking.py:17-22 | every emitted chunk is longer than 20 characters, carries the metadata, and is the text of one group |
| RagChunking.EmitExactly | RAG_UN_SDG/src/chunking.py:16-24 | the texts of the emitted chunks are exactly the group texts longer than 20 characters, in group order |
| RagChunking.EmitComplete | RAG_UN_SDG/src/chunking.py:17-24 | every group whose text is longer than 20 characters yields its chunk with the metadata |
| RagChunking.DocumentChunks | RAG_UN_SDG/src/chunking.py:15-24 | a negative sentences_per_chunk gives no chunks |
| RagChunking.DocumentChunksAtMostCeil | RAG_UN_SDG/src/chunking.py:16-24 | a document with n sentences gives at most ceil(n/k) chunks |
| RagChunking.DefaultChunkCount | RAG_UN_SDG/src/chunking.py:12-24 | with the default three sentences per chunk, n sentences give at most ceil(n/3) chunks |
| RagChunking.ChunkSentences | RAG_UN_SDG/src/chunking.py:16-24 | the inner loop emits exactly the chunks of the groups, in order |
| RagChunking.CreateSentenceChunks | RAG_UN_SDG/src/chunking.py:12-25 | the nested loops build exactly ChunksOf: the chunks of each document in document order |
| RagChunking.ChunksOfAppend | RAG_UN_SDG/src/chunking.py:14-24 | the chunks of two document lists are the chunks of the first followed by those of the second |
| RagChunking.ChunksOfComplete | RAG_UN_SDG/src/chunking.py:14-24 | every group of an input document whose text is longer than 20 characters becomes a chunk with that document's metadata |
| RagChunking.ChunksOfAround | RAG_UN_SDG/src/chunking.py:14-24 | the chunks of the input are those of the documents before document i, then document i's own, then those of the documents after it |
| RagChunking.ChunkOrigin | RAG_UN_SDG/src/chunking.py:14-24 | every chunk is longer than 20 characters and carries the metadata of an input document; its text is the joined text of one group of that document's sentences |
| Text.Lower | app/services/repetition.py:21 | str.lower on ASCII: same length, each character lower-cased |
| Text.Split | app/services/repetition.py:21 | str.split(): every word is non-empty and has no whitespace |
| Text.Strip | AI-detector/app/services/preprocessing.py:27 | str.strip(): the result has no leading or trailing whitespace, and a stripped text is unchanged |
| Text.StripKeepsWords | AI-detector/app/services/preprocessing.py:27 | stripping keeps the words |
| Text.SubRuns | AI-detector/app/services/preprocessing.py:21-22 | re.sub of a character-class run by ' ': no two class characters in a row, and only ' ' left from the class |
| Text.SubRunsKeepsWords | AI-detector/app/services/preprocessing.py:21-22 | replacing whitespace runs by one space keeps the words |
| Text.SplitOn | AI-detector/app/services/modality.py:37 | str.split(sep) gives at least one piece, none holding sep |
| Text.JoinSplitOn | AI-detector/app/services/modality.py:37 | joining the pieces with sep gives back the text |

## Left out

- `AI-detector/app/services/scoring.py` decides with the configured thresholds 70/30 (`AI-detector/app/core/config.py:19-20`) and the fixed 85/15 high-confidence bands, combines a fixed four-signal weighted sum, and scores each sentence by its normalised perplexity alone. It has no modality-dependent weights, no streak bonus, no statistical floor, no blend with a classifier and no reliability flag, so the model has none either.
- The language model: loading GPT-2, tokenizing, and the torch loss and exponent in `perplexity.py` lines 13-41 and 53-73. The token count and the per-sentence perplexity are parameters, and so is the whole-text perplexity of `calculate_final_score`.
- `calculate_perplexity_variance` and `normalize_variance`. `scoring.py` lines 11-12 import them, but they are not defined in `perplexity.py`. The variance and its score are inputs of `Scoring.CalculateFinalScore`, so its sentence-perplexity call at line 36 is not modelled.
- Scoring.CalculateFinalScore: the range of the combined score is proved only when the variance score is in [0,100] and the weights are valid, because both come from outside the function.
- `round(..., 2)` and the other roundings of the result dictionaries, the logging calls, and float conversions. All values are exact reals.
- `nltk.sent_tokenize` is a parameter. The regex engine is abstracted to a per-pattern `search`, so case-insensitive and multi-line matching are not modelled; the pattern strings are kept.
- Text.Lower: lower-casing is ASCII only (letters A-Z), where Python lower-cases every cased character; Repetition.CaseInsensitive and RagPipeline.CaseInsensitive therefore hold for ASCII case only.
- `np.std` is modelled through a square-root parameter and the population variance (`np.var`).
- In `AI-detector/app/services/preprocessing.py`, `Dict` and `np` are used without being imported (lines 2-4 against 54 and 69-70). The model follows the evident intent, not the resulting NameError.
- The quote replacements at `AI-detector/app/services/preprocessing.py:25` each map a character to itself, as written. The model replaces them by themselves too, and `QuoteReplacementIsIdentity` proves this changes nothing.
- RagChunking.CreateSentenceChunks: a `sentences_per_chunk` of 0 makes Python's `range` raise ValueError. The model requires a non-zero value; a negative value gives no chunks, as in Python.
- RetrieverEval.PrecisionAtK: k = 0 divides by zero in Python. The model requires k != 0 and keeps Python's slice meaning for negative k.
- RagChunking.ChunkSentences: the loop index steps to min(i + k, n) rather than i + k. This ends the loop after the same iterations, with the same slices, as `range(0, n, k)`.
- `get_chunkers` (langchain splitters), `generate_answer` and `rag_pipeline` (LLM calls), and the embeddings module are outside the model. So are the FastAPI layer, the configuration loading, and the frontends.
- Document metadata is a `map<string, string>`. `.copy()` is a value copy, so aliasing is not modelled.
