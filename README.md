# Web article sentiment analyzer — a Dafny model of its text pipeline

The analyzer in `info.py` fetches a web article and reduces it to plain text.
It takes the `<p>` paragraphs of the first `<article>` element, or every `<p>`
of the page when there is no article. It keeps the paragraphs longer than 50
characters that do not mention "samaritans" in any case, and joins them with
single spaces. Then `clean_text` splits the result into lines, strips each one,
and keeps the lines longer than 30 characters that do not mention "reddit".
The kept lines are joined with line feeds.

An empty text means no analysis. Otherwise the text is cut into 512-character
chunks and each chunk is classified POSITIVE or NEGATIVE. The labels are
counted, and the most frequent label is the overall verdict: in a tie it is the
label that was voted first. The first 1024 characters are summarised. The
entities found in the first 512 characters are counted, and the ten most
frequent are listed in descending order of count, with ties in first-mention
order.

The model is pure: these are functions over strings and sequences, plus lemmas
about them. The three transformer models are opaque functions passed in as a
`Models` record. A run reports its result and every model call it made, in
order.

Modules:
- `Base` (base.dfy): `Option` and `Min`.
- `Text` (text.dfy): Python's `str.strip`, `lower`, substring `in`, `split` and `join`, and the laws linking them.
- `Chunker` (chunker.dfy): `chunk_text`.
- `Cleaner` (cleaner.dfy): `clean_text`.
- `Extractor` (extractor.dfy): the deterministic part of `extract_text_from_url`.
- `Counting` (counting.dfy): `Counter` in insertion order, `max(..., key=counts.get)` and `most_common(n)`.
- `Analysis` (analysis.dfy): `analyze_url`.
- `Scenarios` (scenarios.dfy): worked examples derived from the general lemmas.

One behaviour of the code is worth stating because it is easy to misread. The
vote has no special tie rule. `max` over the counter returns the first label
with the largest count, and the counter lists labels in first-vote order. So
the votes NEGATIVE, POSITIVE, POSITIVE, NEGATIVE are a 2-2 tie, and the verdict
is NEGATIVE (`Scenarios.TieGoesToFirstVoted`).

## Model

| member | source | states |
|---|---|---|
| Chunker.Chunks | info.py:19-20 | every chunk is non-empty and at most `chunk_size` long; all chunks but the last are exactly `chunk_size` long; there are chunks exactly when the text is non-empty |
| Chunker.ChunkText | info.py:19-20 | `range` with step 0 raises (None) exactly when the size is 0; a negative size gives no chunks; a positive size gives chunks whose concatenation is the text |
| Chunker.ChunksConcat | info.py:19-20 | concatenating the chunks gives back the text |
| Chunker.ChunkOffsets | info.py:19-20 | chunk k starts at k·size and is the slice `text[k*size : min(k*size+size, len)]` |
| Chunker.ChunkCount | info.py:19-20 | the chunks cover the text (count·size ≥ len) and none is superfluous ((count−1)·size < len), so count = ⌈len/size⌉ |
| Chunker.DefaultChunkCount | info.py:19 | with the default size 512 the number of chunks is ⌈len/512⌉ |
| Text.Strip | info.py:25 | `strip()` has no leading or trailing whitespace, is no longer than its input, is empty exactly when the input is all whitespace, and leaves a stripped string unchanged |
| Text.StripSplit | info.py:25 | a string is whitespace + its strip + whitespace |
| Text.StripIdempotent | info.py:25 | stripping twice equals stripping once |
| Text.Lower | info.py:25 | `lower()` keeps the length and maps each character on its own |
| Text.ContainsLowerStrip | info.py:25 | a whitespace-free marker occurs in the lowered stripped line exactly when it occurs in the lowered line |
| Text.Contains | info.py:25 | the definition of the substring test `t in s`, also used at line 40: some index of s starts a copy of t |
| Text.Split | info.py:24 | `split('\n')` yields at least one piece and no piece holds the separator |
| Text.JoinSplit | info.py:24-26 | joining the pieces of a split with the separator gives back the string |
| Text.SplitJoin | info.py:24-26 | splitting a join of separator-free pieces gives back the pieces |
| Text.Join | info.py:26 | the definition of `sep.join(xs)`, also used for the paragraph join at line 43: pieces separated by sep, the empty list giving ""; its laws are Text.JoinSplit, Text.SplitJoin and Text.JoinAppend |
| Text.JoinAppend | info.py:26 | joining two non-empty lists puts one separator between their joins |
| Text.JoinNoMarker | info.py:43 | joining marker-free pieces with whitespace does not create a whitespace-free marker |
| Cleaner.KeepLine | info.py:25 | the definition of the line condition: the stripped line is longer than 30 characters and the lowered raw line does not contain "reddit"; Cleaner.KeepLineStrip relates it to clean lines |
| Cleaner.KeepLineStrip | info.py:25 | a raw line passes the filter exactly when its stripped form is a clean line |
| Cleaner.KeptLines | info.py:25 | the kept lines are no more than the input lines, every one is stripped, longer than 30 characters and free of "reddit" in any case, and none contains a line feed when no input line does |
| Cleaner.KeptLinesAppend | info.py:25 | the filter keeps the order of the lines and drops no qualifying line: it distributes over concatenation |
| Cleaner.KeptLinesSingle | info.py:25 | one line is kept, stripped, exactly when it passes the filter |
| Cleaner.KeptLinesOfClean | info.py:25 | clean lines pass the filter unchanged |
| Cleaner.CleanText | info.py:23-26 | the definition of `clean_text`: split on line feeds, keep and strip the qualifying lines, join with line feeds; its properties are Cleaner.CleanTextLines, Cleaner.CleanTextIdempotent, Cleaner.CleanTextNoNewMarker and Cleaner.CleanTextNoLineMarker |
| Cleaner.CleanTextLines | info.py:23-26 | the output is empty exactly when no line qualifies; otherwise its lines are exactly the kept lines, each of them clean |
| Cleaner.CleanTextIdempotent | info.py:23-26 | cleaning a cleaned text changes nothing |
| Cleaner.CleanTextNoNewMarker | info.py:23-26 | cleaning never creates a whitespace-free marker the raw text did not hold |
| Cleaner.CleanTextNoLineMarker | info.py:23-26 | the cleaned text does not contain "reddit" in any case, not even across a line feed |
| Extractor.SelectParagraphs | info.py:35-36 | a found article's paragraphs are used even when there are none; the page's paragraphs are used only when there is no article |
| Extractor.KeepParagraph | info.py:40 | the definition of the paragraph condition: longer than 50 characters and no "samaritans" in the lowered text |
| Extractor.FilterParagraphs | info.py:38-41 | the kept paragraphs are no more than the input ones and each is longer than 50 characters and free of "samaritans" in any case |
| Extractor.FilterParagraphsAppend | info.py:38-41 | the paragraph filter keeps the order and loses no qualifying paragraph |
| Extractor.FilterParagraphsSingle | info.py:38-41 | one paragraph is kept exactly when it passes the filter |
| Extractor.ParagraphText | info.py:43 | the definition of the joined paragraph text: the kept paragraphs separated by single spaces; Extractor.ParagraphTextJoins states how it joins |
| Extractor.ParagraphTextJoins | info.py:43 | the kept texts of consecutive stretches are joined by exactly one space, and nothing is added when a stretch keeps nothing |
| Extractor.ExtractText | info.py:44-46 | a failed fetch gives the empty text |
| Extractor.ExtractNothingKept | info.py:38-43 | a page with no qualifying paragraph gives the empty text |
| Extractor.ExtractTextEmpty | info.py:29-46 | the extracted text is empty exactly when the fetch failed or no line of the joined paragraph text survives `clean_text` |
| Extractor.ExtractTextIsClean | info.py:29-46 | the extracted text is a fixed point of `clean_text`, and each of its lines is clean |
| Extractor.ExtractTextNoMarkers | info.py:38-43 | the extracted text contains neither "samaritans" nor "reddit" in any case |
| Counting.FirstIndex | info.py:56 | the index of the first occurrence; the length when absent |
| Counting.Add | info.py:56 | counting a known key keeps the number of entries; counting a new key appends it with count 1 |
| Counting.AddCounts | info.py:56 | counting one more element keeps the counter exact |
| Counting.Tally | info.py:56 | the definition of `Counter(xs)`, also used for the entity words at line 61: the elements counted one by one, left to right; Counting.TallyCounts, Counting.TallySum and Counting.TallyLength state what it holds |
| Counting.TallyCounts | info.py:56 | `Counter(xs)` has one entry per distinct element, with its exact count, in first-occurrence order |
| Counting.TallySum | info.py:56 | the counts add up to the number of elements |
| Counting.TallyLength | info.py:56 | the counter has as many entries as there are distinct elements |
| Counting.ArgMaxIndex | info.py:57 | the chosen entry has the largest count and every earlier entry has a smaller one |
| Counting.MaxKey | info.py:57 | there is no maximum exactly when the counter is empty |
| Counting.MajorityVote | info.py:57 | the winner occurs, has the maximal number of occurrences, and among equally frequent elements it occurs first |
| Counting.SortByCount | info.py:61 | the sort is a permutation of the counter |
| Counting.SortRanked | info.py:61 | sorting a counter in first-occurrence order ranks it by descending count, with ties in first-occurrence order |
| Counting.MostCommon | info.py:61 | `most_common(n)` has min(n, entries) entries |
| Counting.MostCommonOfTally | info.py:61 | `Counter(xs).most_common(n)` has min(n, distinct) entries, each with its exact count, ranked by descending count with ties in first-occurrence order; an element is left out only when n entries are listed, and then it ranks after the last |
| Analysis.Window | info.py:59-60 | `text[:k]` is a prefix of length min(k, len) |
| Analysis.Labels | info.py:56 | the label list: label i is the label of vote i |
| Analysis.Words | info.py:61 | the entity word list: word i is the word of entity i |
| Analysis.ClassifyAll | info.py:55 | one vote per chunk: the sentiment model's answer for each chunk, in chunk order |
| Analysis.AnalyzeText | info.py:51-71 | the definition of `analyze_url` after extraction; its properties are Analysis.AnalyzeCalls, Analysis.AnalyzeDependsOnlyOnCalls, Analysis.AnalyzeSentiment and Analysis.AnalyzeEntities |
| Analysis.AnalyzeUrl | info.py:49-50 | the definition of `analyze_url`: extract the text, then analyze it; Analysis.AnalyzeUrlNoResult states exactly when it gives no result |
| Analysis.AnalyzeUrlNoText | info.py:44-52 | a failed fetch, or a page whose selected paragraphs are all filtered out, gives no result and no model call |
| Analysis.AnalyzeUrlNoResult | info.py:43-52 | there is no result exactly when the fetch failed or `clean_text` drops every line of the joined paragraph text, and then no model is called |
| Analysis.AnalyzeUrlMarkerParagraph | info.py:38-52 | a single qualifying paragraph without line feeds that mentions "reddit" in any case passes the paragraph filter but is dropped by `clean_text`, so the page gives no result and no model call |
| Analysis.AnalyzeCalls | info.py:49-71 | an empty text gives no result and no model call; otherwise one classifier call per chunk in chunk order, then the summarizer on `text[:1024]` and the recognizer on `text[:512]`, and the result carries the url and those outputs |
| Analysis.AnalyzeDependsOnlyOnCalls | info.py:49-71 | two model sets that agree on the calls a run makes give the same run |
| Analysis.AnalyzeSentiment | info.py:54-57 | there are ⌈len/512⌉ votes; the counts are exact and add up to the votes; the verdict is a voted label with the maximal count, and the earliest voted one in a tie |
| Analysis.AnalyzeEntities | info.py:60-61 | the top entities are min(10, distinct words) pairs with exact counts, in descending count and first-mention order; an unlisted word means ten are listed and it ranks no higher than the tenth |
| Scenarios.TieGoesToFirstVoted | info.py:56-57 | in a 2-2 tie the verdict is the label voted first |
| Scenarios.EntityRanking | info.py:61 | Apple ×3, Google ×2, Microsoft ×1 ranks in that order with those counts |
| Scenarios.MarkerLineFacts | info.py:25 | the lowered form of a line writing REDDIT in upper case contains "reddit" |
| Scenarios.CleanerExamples | info.py:25 | a short line mentioning Reddit is dropped; a 45-character line saying REDDIT is dropped for the marker alone; a 51-character marker-free line is kept |

## Left out

- The HTTP request, its 10-second timeout and its User-Agent header are I/O outside the model. A page is given either as the parser's output or as `Unreachable`, which stands for any exception.
- BeautifulSoup: HTML parsing, `find("article")`, `find_all("p")` and `get_text(strip=True)` are left out. A page is given as its paragraph texts, already extracted.
- The `st.error` message on a failed fetch is a UI side effect and is not modelled; only the empty text that follows it is.
- Model loading (`load_pipelines`, `st.cache_resource`) and the models themselves are opaque functions. Their scores are carried as `real` values without floating-point semantics.
- The Streamlit page, the JSON download and the UI code after `analyze_url` are left out.
- Whatever a model does with an input longer than it accepts happens inside its opaque function; the model makes no claim about it.
- Analysis.AnalyzeCalls: the three models are total functions, so a model call that raises is not modelled. In `info.py` nothing inside `analyze_url` catches such an exception: the run would end there with no result and no further model call. The stated call sequence holds only for runs where every model call returns.
- Text.Strip: covers only ASCII whitespace and the separators 0x1C-0x1F, not Python's Unicode whitespace (such as U+0085 and U+00A0).
- Text.Lower: covers only ASCII letters, not Unicode case mapping.
- Counting.MaxKey: gives None on an empty counter where Python's `max` raises ValueError. `analyze_url` never reaches that case: the text is non-empty there, so there is at least one chunk.
- Analysis.Entity: the recognizer's entries also carry the `start` and `end` offsets of each entity, which `analyze_url` passes on unchanged in its `entities` field; the model keeps only the word, the group and the score.
- Analysis.AnalyzeText: the entity words are compared as exact strings. Any normalisation the recognizer applies happens inside the opaque function.
