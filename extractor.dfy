/**
 * The deterministic part of extract_text_from_url: the choice between the
 * <article> paragraphs and all paragraphs, the paragraph filter, the join
 * with single spaces and the hand-off to clean_text. Fetching and HTML
 * parsing are outside the model: a page is given as the paragraph texts the
 * parser produced, or as a failure of the request.
 */
module Extractor {
  import opened Base
  import opened Text
  import opened Cleaner

  /** Paragraphs of at most this many characters are dropped. */
  const MinParagraphLength: nat := 50

  /** The paragraph-level noise marker, matched case-insensitively. */
  const ParagraphMarker: string := "samaritans"

  /** What the fetch-and-parse step yields: the request raised (any exception
      is caught), or a parsed document with the paragraph texts inside its
      first <article> element, if it has one, and all its paragraph texts. */
  datatype Page =
    | Unreachable
    | Document(article: Option<seq<string>>, paragraphs: seq<string>)

  /** The paragraphs to filter: those of the <article> element when the page
      has one, otherwise all of the page's paragraphs. A found element counts
      as present even when it holds no paragraph, so then the list is empty. */
  function SelectParagraphs(article: Option<seq<string>>, paragraphs: seq<string>): (r: seq<string>)
    ensures article.Some? ==> r == article.value
    ensures article.None? ==> r == paragraphs
  {
    match article
    case Some(ps) => ps
    case None => paragraphs
  }

  /** The condition on one paragraph text. */
  predicate KeepParagraph(p: string) {
    |p| > MinParagraphLength && !Contains(Lower(p), ParagraphMarker)
  }

  /** The paragraph comprehension: every kept text passes the filter. */
  function FilterParagraphs(ps: seq<string>): (r: seq<string>)
    ensures |r| <= |ps|
    ensures forall i :: 0 <= i < |r| ==> KeepParagraph(r[i])
  {
    if ps == [] then []
    else (if KeepParagraph(ps[0]) then [ps[0]] else []) + FilterParagraphs(ps[1..])
  }

  /** The filter distributes over concatenation: order is preserved and no
      qualifying paragraph is lost. */
  lemma {:induction false} FilterParagraphsAppend(a: seq<string>, b: seq<string>)
    ensures FilterParagraphs(a + b) == FilterParagraphs(a) + FilterParagraphs(b)
  {
    if a == [] {
      assert a + b == b;
    } else {
      assert (a + b)[0] == a[0];
      assert (a + b)[1..] == a[1..] + b;
      FilterParagraphsAppend(a[1..], b);
    }
  }

  lemma FilterParagraphsSingle(p: string)
    ensures FilterParagraphs([p]) == if KeepParagraph(p) then [p] else []
  {
    assert [p][1..] == [];
  }

  /** The kept paragraph texts, separated by single spaces. */
  function ParagraphText(ps: seq<string>): string {
    Join(" ", FilterParagraphs(ps))
  }

  /** The joined text is the kept paragraphs separated by single spaces:
      nothing when none is kept, the one kept text alone, and a single space
      where the kept texts of two consecutive stretches of paragraphs meet. */
  lemma ParagraphTextJoins(a: seq<string>, b: seq<string>)
    ensures FilterParagraphs(a) == [] ==> ParagraphText(a + b) == ParagraphText(b)
    ensures FilterParagraphs(b) == [] ==> ParagraphText(a + b) == ParagraphText(a)
    ensures FilterParagraphs(a) != [] && FilterParagraphs(b) != [] ==>
      ParagraphText(a + b) == ParagraphText(a) + " " + ParagraphText(b)
  {
    FilterParagraphsAppend(a, b);
    var fa, fb := FilterParagraphs(a), FilterParagraphs(b);
    if fa == [] {
      assert fa + fb == fb;
    } else if fb == [] {
      assert fa + fb == fa;
    } else {
      JoinAppend(" ", fa, fb);
    }
  }

  /** extract_text_from_url after the fetch: "" when the request failed,
      otherwise clean_text of the joined filtered paragraphs. */
  function ExtractText(page: Page): (text: string)
    ensures page.Unreachable? ==> text == ""
  {
    match page
    case Unreachable => ""
    case Document(article, ps) => CleanText(ParagraphText(SelectParagraphs(article, ps)))
  }

  /** A page with no qualifying paragraph gives no text: the empty join
      cleans to the empty string. */
  lemma ExtractNothingKept(page: Page)
    requires page.Document?
    requires FilterParagraphs(SelectParagraphs(page.article, page.paragraphs)) == []
    ensures ExtractText(page) == ""
  {
    assert Split("", '\n') == [""];
    KeptLinesSingle("");
  }

  /** The extracted text is empty exactly when the fetch failed or no line of
      the joined paragraph text survives clean_text. */
  lemma ExtractTextEmpty(page: Page)
    ensures ExtractText(page) == "" <==>
      (page.Unreachable? ||
       KeptLines(Split(ParagraphText(SelectParagraphs(page.article, page.paragraphs)), '\n')) == [])
  {
    if page.Document? {
      CleanTextLines(ParagraphText(SelectParagraphs(page.article, page.paragraphs)));
    }
  }

  /** The extracted text is already clean: cleaning it again changes nothing,
      and each of its lines is stripped, long enough and free of the line marker. */
  lemma ExtractTextIsClean(page: Page)
    ensures CleanText(ExtractText(page)) == ExtractText(page)
    ensures ExtractText(page) == "" ||
      forall i :: 0 <= i < |Split(ExtractText(page), '\n')| ==> CleanLine(Split(ExtractText(page), '\n')[i])
  {
    match page
    case Unreachable =>
      assert Split("", '\n') == [""];
      KeptLinesSingle("");
    case Document(article, ps) =>
      var joined := ParagraphText(SelectParagraphs(article, ps));
      CleanTextIdempotent(joined);
      CleanTextLines(joined);
  }

  /** Both noise filters hold of the whole extracted text: it mentions
      neither the paragraph marker nor the line marker, in any case. A marker
      cannot arise from joining, since it has no whitespace and the joins use
      a space and a line feed. */
  lemma ExtractTextNoMarkers(page: Page)
    ensures !Contains(Lower(ExtractText(page)), ParagraphMarker)
    ensures !Contains(Lower(ExtractText(page)), LineMarker)
  {
    match page
    case Unreachable =>
    case Document(article, ps) =>
      var kept := FilterParagraphs(SelectParagraphs(article, ps));
      assert NoSpace(ParagraphMarker);
      JoinNoMarker(" ", kept, ParagraphMarker);
      CleanTextNoNewMarker(Join(" ", kept), ParagraphMarker);
      CleanTextNoLineMarker(Join(" ", kept));
  }
}
