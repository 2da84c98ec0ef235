/** The reference-article extractor: title and content cascades over a fetched
    page, the paragraph fallback, the rejection of short content and the final
    truncation. The page's texts are taken as already stripped of scripts, styles,
    navigation and ads. */
module ReferenceScraper {
  import opened Wrappers
  import opened Strings
  import opened Markup
  import Seqs

  /** Title selectors, in the order they are tried. */
  const TitleSelectors := ["h1", "article h1", ".entry-title", ".post-title", "[class*='title']", "title"]
  const MinTitleLength := 5

  /** Content selectors, in the order they are tried. */
  const ContentSelectors := [
    "article", ".entry-content", ".post-content", ".article-content",
    "[role='article']", "main article", ".content", "#content"
  ]
  const ContentStopLength := 200
  const ParagraphSelector := "article p, .content p, main p"
  const MinParagraphLength := 20
  const ParagraphSeparator := "\n\n"
  const MinContentLength := 100
  const MaxTitleLength := 500
  const MaxContentLength := 10000

  /** What fetching the URL produced: an exception, or a response with its status
      flag and parsed body. */
  datatype Fetched = Threw | Response(ok: bool, page: Document)

  datatype ReferenceArticle = ReferenceArticle(title: string, url: string, content: string)

  /** `probes[i]` is the first text longer than `minLength` characters. */
  ghost predicate FirstLongerAt(probes: seq<string>, minLength: nat, i: int) {
    && 0 <= i < |probes|
    && |probes[i]| > minLength
    && forall j :: 0 <= j < i ==> |probes[j]| <= minLength
  }

  /** The title cascade: the first selector whose trimmed first match is longer than
      five characters; else the text of all `<title>` elements; else the URL. */
  function PickTitle(doc: Document, url: string): (title: string)
    ensures var probes := Probes(doc, TitleSelectors);
      && (forall i :: FirstLongerAt(probes, MinTitleLength, i) ==> title == probes[i])
      && ((forall j :: 0 <= j < |probes| ==> |probes[j]| <= MinTitleLength) ==>
            title == OrElse(Some(Trim(Text(doc, "title"))), url))
  {
    FirstLongerOr(Probes(doc, TitleSelectors), MinTitleLength, OrElse(Some(Trim(Text(doc, "title"))), url))
  }

  /** The first text longer than `minLength` characters, or `fallback`. */
  function FirstLongerOr(probes: seq<string>, minLength: nat, fallback: string): (r: string)
    ensures forall i :: FirstLongerAt(probes, minLength, i) ==> r == probes[i]
    ensures (forall j :: 0 <= j < |probes| ==> |probes[j]| <= minLength) ==> r == fallback
  {
    match FirstLonger(probes, minLength, 0)
    case Some(i) => probes[i]
    case None => fallback
  }

  /** For each content selector, whether it matches anything on the page. */
  function MatchFlags(doc: Document): (flags: seq<bool>)
    ensures |flags| == |ContentSelectors|
  {
    seq(|ContentSelectors|, i requires 0 <= i < |ContentSelectors| => |Select(doc, ContentSelectors[i])| > 0)
  }

  /** The content loop from selector `i` on, `content` being what earlier matches
      left: each matching selector (`matched[j]`) overwrites the content with its
      trimmed first match `texts[j]`, and the loop stops at the first one longer than
      200 characters. */
  function ContentLoop(matched: seq<bool>, texts: seq<string>, i: nat, content: string): (r: string)
    requires |matched| == |texts| && i <= |texts|
    ensures (forall j :: i <= j < |texts| ==> !matched[j]) ==> r == content
    ensures r == content || exists j :: i <= j < |texts| && matched[j] && r == texts[j]
    decreases |texts| - i
  {
    if i == |texts| then content
    else if matched[i] then
      if |texts[i]| > ContentStopLength then texts[i] else ContentLoop(matched, texts, i + 1, texts[i])
    else ContentLoop(matched, texts, i + 1, content)
  }

  /** Selector `j` is the first matching one whose text is longer than 200 characters. */
  ghost predicate StopsAt(matched: seq<bool>, texts: seq<string>, j: int) {
    && 0 <= j < |texts| && j < |matched|
    && matched[j] && |texts[j]| > ContentStopLength
    && forall k :: 0 <= k < j && k < |matched| && matched[k] ==> |texts[k]| <= ContentStopLength
  }

  /** Selector `j` is the last matching one. */
  ghost predicate LastMatch(matched: seq<bool>, j: int) {
    && 0 <= j < |matched|
    && matched[j]
    && forall k :: j < k < |matched| ==> !matched[k]
  }

  lemma {:induction false} ContentLoopStops(matched: seq<bool>, texts: seq<string>, i: nat, content: string, j: nat)
    requires |matched| == |texts| && i <= j < |texts|
    requires matched[j] && |texts[j]| > ContentStopLength
    requires forall k :: i <= k < j && matched[k] ==> |texts[k]| <= ContentStopLength
    ensures ContentLoop(matched, texts, i, content) == texts[j]
    decreases j - i
  {
    if i < j {
      var next := if matched[i] then texts[i] else content;
      ContentLoopStops(matched, texts, i + 1, next, j);
    }
  }

  lemma {:induction false} ContentLoopLast(matched: seq<bool>, texts: seq<string>, i: nat, content: string, j: nat)
    requires |matched| == |texts| && i <= j
    requires LastMatch(matched, j)
    requires forall k :: i <= k < |texts| && matched[k] ==> |texts[k]| <= ContentStopLength
    ensures ContentLoop(matched, texts, i, content) == texts[j]
    decreases |texts| - i
  {
    var next := if matched[i] then texts[i] else content;
    if i < j {
      ContentLoopLast(matched, texts, i + 1, next, j);
    } else {
      assert ContentLoop(matched, texts, i + 1, next) == next;
    }
  }

  /** When some matching selector's text is long, a first such selector exists. */
  lemma {:induction false} FirstLongMatch(matched: seq<bool>, texts: seq<string>, k: nat)
    requires |matched| == |texts| && k < |texts| && matched[k] && |texts[k]| > ContentStopLength
    ensures exists j :: StopsAt(matched, texts, j)
    decreases k
  {
    if !StopsAt(matched, texts, k) {
      var k' :| 0 <= k' < k && matched[k'] && |texts[k']| > ContentStopLength;
      FirstLongMatch(matched, texts, k');
    }
  }

  /** The content cascade stops at the first matching selector whose text exceeds 200
      characters; when none does, the content is the last matching selector's text,
      and "" when no selector matches. */
  lemma ContentCascade(matched: seq<bool>, texts: seq<string>, j: nat)
    requires |matched| == |texts| && j < |texts|
    ensures StopsAt(matched, texts, j) ==> ContentLoop(matched, texts, 0, "") == texts[j]
    ensures LastMatch(matched, j) && (forall k :: 0 <= k < |texts| ==> !StopsAt(matched, texts, k))
            ==> ContentLoop(matched, texts, 0, "") == texts[j]
  {
    if StopsAt(matched, texts, j) {
      ContentLoopStops(matched, texts, 0, "", j);
    }
    if LastMatch(matched, j) && (forall k :: 0 <= k < |texts| ==> !StopsAt(matched, texts, k)) {
      forall k | 0 <= k < |texts| && matched[k] ensures |texts[k]| <= ContentStopLength {
        if |texts[k]| > ContentStopLength {
          FirstLongMatch(matched, texts, k);
        }
      }
      ContentLoopLast(matched, texts, 0, "", j);
    }
  }

  /** The content the selector loop leaves for a page. */
  function CascadeContent(doc: Document): string {
    ContentLoop(MatchFlags(doc), Probes(doc, ContentSelectors), 0, "")
  }

  /** Whether a trimmed paragraph is long enough to be kept. */
  predicate LongParagraph(text: string) {
    |text| > MinParagraphLength
  }

  /** `$(el).text().trim()` for every paragraph, in document order. */
  function ParagraphTexts(doc: Document): (texts: seq<string>)
    ensures |texts| == |Select(doc, ParagraphSelector)|
    ensures forall i :: 0 <= i < |texts| ==> texts[i] == Trim(Select(doc, ParagraphSelector)[i].text)
  {
    var elements := Select(doc, ParagraphSelector);
    seq(|elements|, i requires 0 <= i < |elements| => Trim(elements[i].text))
  }

  /** The paragraph texts kept by the fallback: exactly the trimmed texts longer than
      20 characters, in document order, each at its rank among them. */
  function LongParagraphs(doc: Document): (kept: seq<string>)
    ensures |kept| == Seqs.Count(ParagraphTexts(doc), LongParagraph)
    ensures forall i :: 0 <= i < |kept| ==> |kept[i]| > MinParagraphLength
    ensures forall k :: 0 <= k < |ParagraphTexts(doc)| && |ParagraphTexts(doc)[k]| > MinParagraphLength ==>
              && Seqs.Count(ParagraphTexts(doc)[..k], LongParagraph) < |kept|
              && kept[Seqs.Count(ParagraphTexts(doc)[..k], LongParagraph)] == ParagraphTexts(doc)[k]
  {
    var texts := ParagraphTexts(doc);
    Seqs.FilterCount(texts, LongParagraph);
    forall k | 0 <= k < |texts| && |texts[k]| > MinParagraphLength
      ensures Seqs.Count(texts[..k], LongParagraph) < |Seqs.Filter(texts, LongParagraph)|
      ensures Seqs.Filter(texts, LongParagraph)[Seqs.Count(texts[..k], LongParagraph)] == texts[k]
    {
      Seqs.FilterAt(texts, LongParagraph, k);
    }
    Seqs.Filter(texts, LongParagraph)
  }

  /** The fallback: the kept paragraph texts joined by a blank line, then trimmed;
      "" when no paragraph is long enough. */
  function Paragraphs(doc: Document): (r: string)
    ensures r == Trim(Join(LongParagraphs(doc), ParagraphSeparator))
    ensures LongParagraphs(doc) == [] ==> r == ""
    ensures IsTrimmed(r)
  {
    Trim(Join(LongParagraphs(doc), ParagraphSeparator))
  }

  /** Content before the length check: the cascade's result, replaced by the paragraph
      fallback when it is shorter than 200 characters (exactly 200 is kept). */
  function ExtractedContent(doc: Document): (content: string)
    ensures |CascadeContent(doc)| >= ContentStopLength ==> content == CascadeContent(doc)
    ensures |CascadeContent(doc)| < ContentStopLength ==> content == Paragraphs(doc)
  {
    var cascaded := CascadeContent(doc);
    if |cascaded| < ContentStopLength then Paragraphs(doc) else cascaded
  }

  /** The returned record: the title cut to 500 characters, the URL unchanged and
      the content cut to 10000 characters (`substring(0, n)`). */
  function Truncated(title: string, url: string, content: string): (a: ReferenceArticle)
    ensures a.url == url
    ensures |a.title| <= MaxTitleLength && |a.title| <= |title| && a.title == title[..|a.title|]
    ensures |title| <= MaxTitleLength ==> a.title == title
    ensures |a.content| <= MaxContentLength && |a.content| <= |content| && a.content == content[..|a.content|]
    ensures |content| <= MaxContentLength ==> a.content == content
    ensures |content| >= MinContentLength ==> |a.content| >= MinContentLength
  {
    ReferenceArticle(Seqs.Take(title, MaxTitleLength), url, Seqs.Take(content, MaxContentLength))
  }

  /** `scrapeReferenceArticle`: `None` when the fetch throws, the response is not ok,
      or the extracted content is shorter than 100 characters; otherwise the
      truncated title, URL and content. */
  function ScrapeReference(url: string, fetched: Fetched): (r: Option<ReferenceArticle>)
    ensures r.Some? <==> fetched.Response? && fetched.ok && |ExtractedContent(fetched.page)| >= MinContentLength
    ensures r.Some? ==> r.value == Truncated(PickTitle(fetched.page, url), url, ExtractedContent(fetched.page))
    ensures r.Some? ==> r.value.url == url && |r.value.content| >= MinContentLength
  {
    match fetched
    case Threw => None
    case Response(ok, doc) =>
      if !ok then None
      else
        var content := ExtractedContent(doc);
        if |content| < MinContentLength then None
        else Some(Truncated(PickTitle(doc, url), url, content))
  }
}
