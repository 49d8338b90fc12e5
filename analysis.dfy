/**
 * analyze_url with the three transformer models abstracted: the chunked
 * sentiment vote, the majority label, the summary and entity windows, the
 * top-10 entity ranking and the result record. The models are opaque
 * functions handed in as a capability record; a run also reports which
 * model was called on which input, in order.
 */
module Analysis {
  import opened Base
  import opened Text
  import opened Chunker
  import opened Counting
  import opened Cleaner
  import opened Extractor

  /** The labels of the sentiment model. */
  datatype Label = POSITIVE | NEGATIVE

  /** The sentiment model's top answer for one chunk: its label and its score. */
  datatype Vote = Vote(sentiment: Label, score: real)

  /** The fields of a recognizer entry the model uses: the entity's surface
      text, its group and the model's score. */
  datatype Entity = Entity(word: string, entityGroup: string, score: real)

  /** The loaded models. */
  datatype Models = Models(
    classify: string -> Vote,
    summarize: string -> string,
    recognize: string -> seq<Entity>)

  /** One model invocation and its input. */
  datatype Call = Classify(input: string) | Summarize(input: string) | Recognize(input: string)

  /** The dict analyze_url returns. */
  datatype AnalysisResult = AnalysisResult(
    url: string,
    summary: string,
    overallSentiment: Label,
    sentimentCounts: seq<Entry<Label>>,
    sentimentChunks: seq<Vote>,
    entities: seq<Entity>,
    topEntities: seq<Entry<string>>)

  /** What one analyze_url call produces (None for no result) and the model
      calls it makes, in order. */
  datatype Run = Run(result: Option<AnalysisResult>, calls: seq<Call>)

  /** The summarizer sees at most the first 1024 characters. */
  const SummaryWindow: nat := 1024

  /** The entity recognizer sees at most the first 512 characters. */
  const EntityWindow: nat := 512

  /** The number of top entities listed. */
  const TopEntityCount: nat := 10

  /** The leading slice of at most k characters: the first min(k, |text|). */
  function Window(text: string, k: nat): (w: string)
    ensures |w| == Min(k, |text|)
    ensures w <= text
  {
    text[..Min(k, |text|)]
  }

  /** The sentiment model's top answer for each chunk, in chunk order. */
  function ClassifyAll(classify: string -> Vote, chunks: seq<string>): (votes: seq<Vote>)
    ensures |votes| == |chunks|
    ensures forall i :: 0 <= i < |chunks| ==> votes[i] == classify(chunks[i])
  {
    seq(|chunks|, i requires 0 <= i < |chunks| => classify(chunks[i]))
  }

  /** The label of each vote, in vote order. */
  function Labels(votes: seq<Vote>): (ls: seq<Label>)
    ensures |ls| == |votes|
    ensures forall i :: 0 <= i < |votes| ==> ls[i] == votes[i].sentiment
  {
    seq(|votes|, i requires 0 <= i < |votes| => votes[i].sentiment)
  }

  /** The surface text of each recognized entity, in recognizer order. */
  function Words(entities: seq<Entity>): (ws: seq<string>)
    ensures |ws| == |entities|
    ensures forall i :: 0 <= i < |entities| ==> ws[i] == entities[i].word
  {
    seq(|entities|, i requires 0 <= i < |entities| => entities[i].word)
  }

  /** The sentiment model calls, one per chunk in chunk order. */
  function ClassifyCalls(chunks: seq<string>): (cs: seq<Call>)
    ensures |cs| == |chunks|
  {
    seq(|chunks|, i requires 0 <= i < |chunks| => Classify(chunks[i]))
  }

  /** analyze_url once the text has been extracted. */
  function AnalyzeText(url: string, text: string, models: Models): Run {
    if text == "" then Run(None, [])
    else
      var chunks := Chunks(text, DefaultChunkSize);
      var votes := ClassifyAll(models.classify, chunks);
      var counts := Tally(Labels(votes));
      MajorityVote(Labels(votes));
      var overall := MaxKey(counts).value;
      var summaryInput := Window(text, SummaryWindow);
      var entityInput := Window(text, EntityWindow);
      var entities := models.recognize(entityInput);
      var result := AnalysisResult(
        url, models.summarize(summaryInput), overall, counts, votes, entities,
        MostCommon(Tally(Words(entities)), TopEntityCount));
      Run(Some(result), ClassifyCalls(chunks) + [Summarize(summaryInput), Recognize(entityInput)])
  }

  /** analyze_url(url): extract the page's text, then analyze it. */
  function AnalyzeUrl(url: string, page: Page, models: Models): Run {
    AnalyzeText(url, ExtractText(page), models)
  }

  /** A failed fetch, or a page none of whose selected paragraphs qualifies,
      gives no result and consults no model. */
  lemma AnalyzeUrlNoText(url: string, page: Page, models: Models)
    requires page.Unreachable? ||
      FilterParagraphs(SelectParagraphs(page.article, page.paragraphs)) == []
    ensures AnalyzeUrl(url, page, models) == Run(None, [])
  {
    if page.Document? {
      ExtractNothingKept(page);
    }
  }

  /** analyze_url gives no result exactly when the fetch failed or clean_text
      drops every line of the joined paragraph text (which includes the case
      where no paragraph is kept), and then it consults no model. */
  lemma AnalyzeUrlNoResult(url: string, page: Page, models: Models)
    ensures AnalyzeUrl(url, page, models).result.None? <==>
      (page.Unreachable? ||
       KeptLines(Split(ParagraphText(SelectParagraphs(page.article, page.paragraphs)), '\n')) == [])
    ensures AnalyzeUrl(url, page, models).result.None? ==> AnalyzeUrl(url, page, models).calls == []
  {
    ExtractTextEmpty(page);
    AnalyzeCalls(url, ExtractText(page), models);
  }

  /** A single qualifying paragraph without line feeds that mentions the line
      marker in any case passes the paragraph filter but not the line filter,
      so the page gives no result and no model call. */
  lemma AnalyzeUrlMarkerParagraph(url: string, p: string, models: Models)
    requires KeepParagraph(p) && '\n' !in p
    requires Contains(Lower(p), LineMarker)
    ensures AnalyzeUrl(url, Document(None, [p]), models) == Run(None, [])
  {
    FilterParagraphsSingle(p);
    SplitNoSeparator(p, '\n');
    KeptLinesSingle(p);
    AnalyzeUrlNoResult(url, Document(None, [p]), models);
  }

  /** No text means no result and no model call; otherwise a result, after
      one sentiment call per chunk in chunk order, then one summarizer call on
      the first min(1024, |text|) characters and one recognizer call on the
      first min(512, |text|) characters, whose outputs the result carries. */
  lemma AnalyzeCalls(url: string, text: string, models: Models)
    ensures var run := AnalyzeText(url, text, models);
      && (text == "" ==> run.result.None? && run.calls == [])
      && (text != "" ==>
            var chunks := Chunks(text, DefaultChunkSize);
            && run.result.Some?
            && |run.calls| == |chunks| + 2
            && (forall i :: 0 <= i < |chunks| ==> run.calls[i] == Classify(chunks[i]))
            && run.calls[|chunks|] == Summarize(text[..Min(SummaryWindow, |text|)])
            && run.calls[|chunks| + 1] == Recognize(text[..Min(EntityWindow, |text|)])
            && run.result.value.url == url
            && run.result.value.summary == models.summarize(text[..Min(SummaryWindow, |text|)])
            && run.result.value.entities == models.recognize(text[..Min(EntityWindow, |text|)])
            && (forall i :: 0 <= i < |chunks| ==>
                  run.result.value.sentimentChunks[i] == models.classify(chunks[i])))
  {
  }

  /** Two sets of models that agree on every input a run hands them give the
      same run: the result depends on the models only through those calls. */
  predicate AgreeOn(m1: Models, m2: Models, calls: seq<Call>) {
    forall i :: 0 <= i < |calls| ==>
      match calls[i]
      case Classify(x) => m1.classify(x) == m2.classify(x)
      case Summarize(x) => m1.summarize(x) == m2.summarize(x)
      case Recognize(x) => m1.recognize(x) == m2.recognize(x)
  }

  lemma AnalyzeDependsOnlyOnCalls(url: string, text: string, m1: Models, m2: Models)
    requires AgreeOn(m1, m2, AnalyzeText(url, text, m1).calls)
    ensures AnalyzeText(url, text, m1) == AnalyzeText(url, text, m2)
  {
    if text != "" {
      var chunks := Chunks(text, DefaultChunkSize);
      var calls := AnalyzeText(url, text, m1).calls;
      forall i | 0 <= i < |chunks|
        ensures m1.classify(chunks[i]) == m2.classify(chunks[i])
      {
        assert calls[i] == Classify(chunks[i]);
      }
      assert calls[|chunks|] == Summarize(Window(text, SummaryWindow));
      assert calls[|chunks| + 1] == Recognize(Window(text, EntityWindow));
      assert ClassifyAll(m1.classify, chunks) == ClassifyAll(m2.classify, chunks);
    }
  }

  /** The sentiment verdict: one vote per chunk (ceil(|text| / 512) of them);
      the counts are Counter(labels) and add up to the number of chunks; the
      overall label has the largest count, and among labels with that count
      it is the one whose first vote comes earliest in chunk order. */
  lemma AnalyzeSentiment(url: string, text: string, models: Models)
    requires text != ""
    ensures var res := AnalyzeText(url, text, models).result.value;
      var labels := Labels(res.sentimentChunks);
      && |res.sentimentChunks| == (|text| + DefaultChunkSize - 1) / DefaultChunkSize
      && IsCounterOf(res.sentimentCounts, labels)
      && Sum(res.sentimentCounts) == |res.sentimentChunks|
      && res.overallSentiment in labels
      && (forall l :: Occurrences(labels, l) <= Occurrences(labels, res.overallSentiment))
      && (forall l :: Occurrences(labels, l) == Occurrences(labels, res.overallSentiment) ==>
            FirstIndex(labels, res.overallSentiment) <= FirstIndex(labels, l))
  {
    var res := AnalyzeText(url, text, models).result.value;
    var labels := Labels(res.sentimentChunks);
    DefaultChunkCount(text);
    TallyCounts(labels);
    TallySum(labels);
    MajorityVote(labels);
  }

  /** The entity ranking: at most 10 pairs, min(10, distinct words) of them,
      each word with its exact number of mentions, ranked by descending count
      with ties in first-mention order; a word is left out only when ten pairs
      are listed, and then it ranks after the tenth. */
  lemma AnalyzeEntities(url: string, text: string, models: Models)
    requires text != ""
    ensures var res := AnalyzeText(url, text, models).result.value;
      var words := Words(res.entities);
      var top := res.topEntities;
      && |top| == Min(TopEntityCount, DistinctCount(words))
      && (forall i :: 0 <= i < |top| ==> top[i].key in words && top[i].count == Occurrences(words, top[i].key))
      && (forall i, j :: 0 <= i < j < |top| ==> top[i].count >= top[j].count)
      && (forall i, j :: 0 <= i < j < |top| && top[i].count == top[j].count ==>
            FirstIndex(words, top[i].key) < FirstIndex(words, top[j].key))
      && (forall w :: w in words && w !in Keys(top) ==>
            |top| == TopEntityCount && Occurrences(words, w) <= top[TopEntityCount - 1].count)
  {
    var res := AnalyzeText(url, text, models).result.value;
    var words := Words(res.entities);
    MostCommonOfTally(words, TopEntityCount);
    var top := res.topEntities;
    forall i, j | 0 <= i < j < |top| ensures Precedes(words, top[i], top[j]) {
    }
  }
}
