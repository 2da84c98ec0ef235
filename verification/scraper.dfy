/** The blog listing scraper: last-page resolution, stub extraction from the
    `.elementor-post` cards, oldest-first selection of five, and full-content
    extraction with its fallbacks. Network fetches, date parsing and URL
    resolution are parameters of the model. */
module Scraper {
  import opened Wrappers
  import opened Strings
  import opened Markup
  import StableSort
  import Seqs

  const PaginationSelector := "a.page-numbers, .pagination a, .page-numbers a"
  const PostSelector := ".elementor-post"
  const TitleSelector := ".elementor-post__title"
  const ReadMoreSelector := ".elementor-post__read-more"
  const AnchorSelector := "a"
  const ExcerptSelector := ".elementor-post__excerpt"
  const AuthorSelector := ".elementor-post-author"
  const DateSelector := ".elementor-post-date"
  const DefaultAuthor := "BeyondChats Team"
  const SelectionSize := 5

  /** Full-content selectors, in the order they are tried. */
  const ContentSelectors := [
    ".elementor-post__content",
    ".entry-content",
    "article .content",
    ".post-content",
    "main article",
    ".article-content"
  ]
  const ParagraphSelector := "article p, .content p, main p"
  const ParagraphSeparator := "\n\n"
  const MinContentLength := 100

  /** Fetching and parsing a URL: the page, or `None` when the request throws. */
  type Web = string -> Option<Document>

  // ---------------------------------------------------------------------------
  // Last-page resolution

  datatype PageLink = PageLink(url: string, pageNum: int)

  /** A pagination anchor is usable when it has a non-empty `href` and its trimmed
      text starts with an integer. */
  predicate IsPageLink(anchor: Element) {
    Truthy(anchor.href) && ParseInt(Trim(anchor.text)).Some?
  }

  /** The page link a usable anchor gives: its `href` and the page number read
      from its trimmed text. */
  function AsPageLink(anchor: Element): (link: Option<PageLink>)
    ensures link.Some? <==> IsPageLink(anchor)
  {
    if IsPageLink(anchor) then Some(PageLink(anchor.href.value, ParseInt(Trim(anchor.text)).value)) else None
  }

  /** The usable pagination anchors, in document order, with their page numbers:
      the anchor at index `k`, when usable, gives the link at its rank among the
      usable anchors. */
  function PageLinks(anchors: seq<Element>): (links: seq<PageLink>)
    ensures |links| == Seqs.Count(anchors, IsPageLink)
    ensures links == [] <==> forall k :: 0 <= k < |anchors| ==> !IsPageLink(anchors[k])
    ensures forall k :: 0 <= k < |anchors| && IsPageLink(anchors[k]) ==>
              && Seqs.Count(anchors[..k], IsPageLink) < |links|
              && links[Seqs.Count(anchors[..k], IsPageLink)].url == anchors[k].href.value
              && links[Seqs.Count(anchors[..k], IsPageLink)].pageNum == ParseInt(Trim(anchors[k].text)).value
    ensures forall k :: 0 <= k < |links| ==> links[k].url != ""
  {
    var links := Collect(anchors, AsPageLink);
    Seqs.CountSame(anchors, Present(AsPageLink), IsPageLink);
    forall k | 0 <= k <= |anchors|
      ensures Seqs.Count(anchors[..k], Present(AsPageLink)) == Seqs.Count(anchors[..k], IsPageLink)
    {
      Seqs.CountSame(anchors[..k], Present(AsPageLink), IsPageLink);
    }
    Seqs.CountZeroIff(anchors, IsPageLink);
    forall i | 0 <= i < |links| ensures links[i].url != "" {
      CollectFrom(anchors, AsPageLink, i);
    }
    links
  }

  /** `links[i]` has the largest page number, and every earlier link a smaller one. */
  ghost predicate IsFirstMax(links: seq<PageLink>, i: int) {
    && 0 <= i < |links|
    && (forall j :: 0 <= j < |links| ==> links[j].pageNum <= links[i].pageNum)
    && (forall j :: 0 <= j < i ==> links[j].pageNum < links[i].pageNum)
  }

  /** `rest.reduce((max, link) => link.pageNum > max.pageNum ? link : max, max)`. */
  function ReduceMax(max: PageLink, rest: seq<PageLink>): PageLink
    decreases |rest|
  {
    if rest == [] then max
    else ReduceMax(if rest[0].pageNum > max.pageNum then rest[0] else max, rest[1..])
  }

  lemma {:induction false} ReduceMaxFrom(links: seq<PageLink>, i: nat, k: nat)
    requires i < k <= |links|
    requires IsFirstMax(links[..k], i)
    ensures exists m :: IsFirstMax(links, m) && ReduceMax(links[i], links[k..]) == links[m]
    decreases |links| - k
  {
    if k == |links| {
      assert links[..k] == links;
      assert IsFirstMax(links, i);
    } else {
      var next := if links[k].pageNum > links[i].pageNum then k else i;
      assert IsFirstMax(links[..k + 1], next) by {
        assert forall j :: 0 <= j < k ==> links[..k + 1][j] == links[..k][j];
      }
      assert links[k..][1..] == links[k + 1..];
      ReduceMaxFrom(links, next, k + 1);
    }
  }

  /** The reduction picks the first link carrying the largest page number: the
      strict `>` keeps the earlier link on ties. */
  lemma ReduceMaxIsFirstMax(links: seq<PageLink>)
    requires |links| > 0
    ensures exists m :: IsFirstMax(links, m) && ReduceMax(links[0], links[1..]) == links[m]
  {
    assert IsFirstMax(links[..1], 0);
    ReduceMaxFrom(links, 0, 1);
  }

  /** `findLastPageUrl`: the URL of the highest-numbered pagination link, the first
      one on ties; the listing URL itself when the page cannot be fetched or has no
      usable pagination link. */
  function FindLastPageUrl(baseUrl: string, page: Option<Document>): (r: string)
    ensures page.None? ==> r == baseUrl
    ensures page.Some? ==>
      var anchors := Select(page.value, PaginationSelector);
      var links := PageLinks(anchors);
      && ((forall k :: 0 <= k < |anchors| ==> !IsPageLink(anchors[k])) ==> r == baseUrl)
      && (links != [] ==> exists m :: IsFirstMax(links, m) && r == links[m].url)
  {
    match page
    case None => baseUrl
    case Some(doc) =>
      var links := PageLinks(Select(doc, PaginationSelector));
      if links == [] then baseUrl
      else
        ReduceMaxIsFirstMax(links);
        ReduceMax(links[0], links[1..]).url
  }

  // ---------------------------------------------------------------------------
  // Stub extraction

  /** An article found on the listing page, before its full content is fetched.
      `published` is a timestamp in milliseconds when the date parsed. */
  datatype Stub = Stub(title: string, url: string, author: string, published: Option<int>, excerpt: string)

  function CardTitle(card: Element): string {
    Trim(Text(card.inside, TitleSelector))
  }

  /** The read-more anchor's `href`, or else the first anchor's (`a || b`). */
  function CardLink(card: Element): Option<string> {
    var readMore := FirstHref(card.inside, ReadMoreSelector);
    if Truthy(readMore) then readMore else FirstHref(card.inside, AnchorSelector)
  }

  function CardExcerpt(card: Element): string {
    Trim(Text(card.inside, ExcerptSelector))
  }

  function CardAuthor(card: Element): string {
    Trim(Text(card.inside, AuthorSelector))
  }

  function CardDate(card: Element): string {
    Trim(Text(card.inside, DateSelector))
  }

  datatype CardOutcome = Skipped | Emitted(stub: Stub) | Threw

  /** One iteration of the listing loop. `parseDate` stands for `new Date(s).getTime()`
      (`None` for `NaN`); `resolve` for `new URL(link, base)` (`None` when it throws).
      A relative link is resolved against the listing URL the scrape started from. */
  function ReadCard(card: Element, listingUrl: string, parseDate: string -> Option<int>,
                    resolve: (string, string) -> Option<string>): (r: CardOutcome)
    ensures r.Skipped? <==> CardTitle(card) == "" || !Truthy(CardLink(card))
    ensures r.Threw? <==>
      && CardTitle(card) != "" && Truthy(CardLink(card))
      && !StartsWith(CardLink(card).value, "http") && resolve(CardLink(card).value, listingUrl).None?
    ensures r.Emitted? ==>
      var link := CardLink(card).value;
      && r.stub.title == CardTitle(card) != ""
      && (CardAuthor(card) != "" ==> r.stub.author == CardAuthor(card))
      && (CardAuthor(card) == "" ==> r.stub.author == DefaultAuthor)
      && (CardDate(card) == "" ==> r.stub.published.None?)
      && (CardDate(card) != "" ==> r.stub.published == parseDate(CardDate(card)))
      && (StartsWith(link, "http") ==> r.stub.url == link)
      && (!StartsWith(link, "http") ==> resolve(link, listingUrl) == Some(r.stub.url))
      && r.stub.excerpt == CardExcerpt(card)
  {
    var title := CardTitle(card);
    var link := CardLink(card);
    if title == "" || !Truthy(link) then Skipped
    else
      var author := OrElse(Some(CardAuthor(card)), DefaultAuthor);
      var dateText := CardDate(card);
      var published := if dateText == "" then None else parseDate(dateText);
      var url := if StartsWith(link.value, "http") then Some(link.value) else resolve(link.value, listingUrl);
      match url
      case None => Threw
      case Some(u) => Emitted(Stub(title, u, author, published, CardExcerpt(card)))
  }

  /** The stub a card contributes, if the loop pushes one. */
  function CardStub(listingUrl: string, parseDate: string -> Option<int>,
                    resolve: (string, string) -> Option<string>): Element -> Option<Stub>
  {
    card => match ReadCard(card, listingUrl, parseDate, resolve)
            case Emitted(stub) => Some(stub)
            case _ => None
  }

  /** The listing loop over the cards: `None` when resolving some link throws, which
      aborts the whole scrape; otherwise the emitted stubs in card order. */
  function ReadCards(cards: seq<Element>, listingUrl: string, parseDate: string -> Option<int>,
                     resolve: (string, string) -> Option<string>): (r: Option<seq<Stub>>)
    ensures r.None? <==> exists k :: 0 <= k < |cards| && ReadCard(cards[k], listingUrl, parseDate, resolve).Threw?
    ensures r.Some? ==> r.value == Collect(cards, CardStub(listingUrl, parseDate, resolve))
    ensures r.Some? ==> forall k :: 0 <= k < |r.value| ==> r.value[k].title != "" && r.value[k].author != ""
    decreases |cards|
  {
    if cards == [] then Some([])
    else
      var f := CardStub(listingUrl, parseDate, resolve);
      var outcome := ReadCard(cards[0], listingUrl, parseDate, resolve);
      assert f(cards[0]) == if outcome.Emitted? then Some(outcome.stub) else None;
      CollectStep(cards, f);
      ThrowsInTail(cards, listingUrl, parseDate, resolve);
      match outcome
      case Threw => None
      case Skipped => ReadCards(cards[1..], listingUrl, parseDate, resolve)
      case Emitted(stub) =>
        match ReadCards(cards[1..], listingUrl, parseDate, resolve)
        case None => None
        case Some(rest) => Some([stub] + rest)
  }

  /** Some card throws exactly when the first one does or a later one does. */
  lemma ThrowsInTail(cards: seq<Element>, listingUrl: string, parseDate: string -> Option<int>,
                     resolve: (string, string) -> Option<string>)
    requires cards != []
    ensures (exists k :: 0 <= k < |cards| && ReadCard(cards[k], listingUrl, parseDate, resolve).Threw?) <==>
            ReadCard(cards[0], listingUrl, parseDate, resolve).Threw?
            || exists k :: 0 <= k < |cards[1..]| && ReadCard(cards[1..][k], listingUrl, parseDate, resolve).Threw?
  {
    assert forall k :: 1 <= k < |cards| ==> cards[k] == cards[1..][k - 1];
  }

  // ---------------------------------------------------------------------------
  // Oldest-first selection

  /** `a.date_published?.getTime() || 0`: undated stubs are keyed as the epoch. */
  function SortKey(stub: Stub): int {
    stub.published.GetOr(0)
  }

  /** `sort((a, b) => key(a) - key(b)).slice(0, 5)`: stable sort by ascending key, then the first five. */
  function SelectOldest(stubs: seq<Stub>): (r: seq<Stub>)
    ensures |r| == if |stubs| < SelectionSize then |stubs| else SelectionSize
    ensures r == StableSort.SortBy(stubs, SortKey)[..|r|]
    ensures multiset(r) <= multiset(stubs)
    ensures StableSort.SortedBy(r, SortKey)
  {
    var sorted := StableSort.SortBy(stubs, SortKey);
    StableSort.SortBySorted(stubs, SortKey);
    var r := if |sorted| < SelectionSize then sorted else sorted[..SelectionSize];
    assert sorted == r + sorted[|r|..];
    assert multiset(sorted) == multiset(r) + multiset(sorted[|r|..]);
    r
  }

  /** No stub left out is older than a selected one. */
  lemma SelectionKeepsOldest(stubs: seq<Stub>, chosen: Stub, left: Stub)
    requires chosen in SelectOldest(stubs)
    requires left in multiset(stubs) - multiset(SelectOldest(stubs))
    ensures SortKey(chosen) <= SortKey(left)
  {
    var sorted := StableSort.SortBy(stubs, SortKey);
    var r := SelectOldest(stubs);
    StableSort.SortBySorted(stubs, SortKey);
    Seqs.InSuffix(sorted, |r|, left);
    var j :| |r| <= j < |sorted| && sorted[j] == left;
    var i :| 0 <= i < |r| && r[i] == chosen;
    assert sorted[i] == chosen;
  }

  /** Among stubs with the same key (in particular all undated ones), the selection
      keeps listing order. */
  lemma SelectionStable(stubs: seq<Stub>, k: int)
    ensures StableSort.WithKey(StableSort.SortBy(stubs, SortKey), SortKey, k) == StableSort.WithKey(stubs, SortKey, k)
  {
    StableSort.SortByStable(stubs, SortKey, k);
  }

  // ---------------------------------------------------------------------------
  // Full content

  function Texts(elements: seq<Element>): (texts: seq<string>)
    ensures |texts| == |elements|
  {
    seq(|elements|, i requires 0 <= i < |elements| => elements[i].text)
  }

  /** The text the content cascade settles on: the first content selector whose
      trimmed first match is longer than 100 characters, or the paragraph fallback. */
  ghost predicate IsCascadeResult(doc: Document, r: string) {
    var probes := Probes(doc, ContentSelectors);
    || (exists i :: 0 <= i < |probes| && |probes[i]| > MinContentLength && r == probes[i]
                    && forall j :: 0 <= j < i ==> |probes[j]| <= MinContentLength)
    || ((forall j :: 0 <= j < |probes| ==> |probes[j]| <= MinContentLength)
        && r == Trim(Join(Texts(Select(doc, ParagraphSelector)), ParagraphSeparator)))
  }

  /** `fetchFullArticleContent`: the first content selector whose trimmed first match
      is longer than 100 characters; otherwise every paragraph's text joined by a
      blank line and trimmed; "" when the fetch throws. */
  function FullContent(page: Option<Document>): (r: string)
    ensures page.None? ==> r == ""
    ensures page.Some? ==> IsCascadeResult(page.value, r)
  {
    match page
    case None => ""
    case Some(doc) =>
      var probes := Probes(doc, ContentSelectors);
      match FirstLonger(probes, MinContentLength, 0)
      case Some(i) => probes[i]
      case None => Trim(Join(Texts(Select(doc, ParagraphSelector)), ParagraphSeparator))
  }

  /** A scraped article, ready to be stored. */
  datatype ScrapedArticle = ScrapedArticle(title: string, url: string, author: string,
                                           published: Option<int>, originalContent: string)

  /** `fullContent || article.excerpt || article.title`. */
  function Complete(stub: Stub, fullContent: string): (a: ScrapedArticle)
    ensures a.title == stub.title && a.url == stub.url && a.author == stub.author && a.published == stub.published
    ensures fullContent != "" ==> a.originalContent == fullContent
    ensures fullContent == "" && stub.excerpt != "" ==> a.originalContent == stub.excerpt
    ensures fullContent == "" && stub.excerpt == "" ==> a.originalContent == stub.title
    ensures stub.title != "" ==> a.originalContent != ""
  {
    ScrapedArticle(stub.title, stub.url, stub.author, stub.published,
                   if fullContent != "" then fullContent else if stub.excerpt != "" then stub.excerpt else stub.title)
  }

  /** The stubs the scrape selects, when it gets that far: the five oldest of the
      stubs the last listing page's cards emit, with relative links resolved
      against `url`; `None` when that page cannot be fetched or a card throws. */
  function SelectedStubs(url: string, web: Web, parseDate: string -> Option<int>,
                         resolve: (string, string) -> Option<string>): (r: Option<seq<Stub>>)
    ensures web(FindLastPageUrl(url, web(url))).None? ==> r.None?
    ensures web(FindLastPageUrl(url, web(url))).Some? ==>
      var cards := Select(web(FindLastPageUrl(url, web(url))).value, PostSelector);
      && (r.None? <==> exists k :: 0 <= k < |cards| && ReadCard(cards[k], url, parseDate, resolve).Threw?)
      && (r.Some? ==> r.value == SelectOldest(Collect(cards, CardStub(url, parseDate, resolve))))
    ensures r.Some? ==> |r.value| <= SelectionSize
    ensures r.Some? ==> forall i :: 0 <= i < |r.value| ==> r.value[i].title != ""
  {
    match web(FindLastPageUrl(url, web(url)))
    case None => None
    case Some(listing) =>
      match ReadCards(Select(listing, PostSelector), url, parseDate, resolve)
      case None => None
      case Some(stubs) =>
        var selected := SelectOldest(stubs);
        forall i | 0 <= i < |selected| ensures selected[i].title != "" {
          assert selected[i] in multiset(stubs);
        }
        Some(selected)
  }

  /** The content-fetching loop: one article per stub, in order. */
  function CompleteAll(selected: seq<Stub>, web: Web): (r: seq<ScrapedArticle>)
    ensures |r| == |selected|
    ensures forall i :: 0 <= i < |r| ==> r[i] == Complete(selected[i], FullContent(web(selected[i].url)))
  {
    seq(|selected|, i requires 0 <= i < |selected| => Complete(selected[i], FullContent(web(selected[i].url))))
  }

  /** `scrapeArticles`: at most five articles, one per selected stub and in the same
      order, each with non-empty content; nothing when the listing fetch or a link
      resolution throws. Relative links resolve against `url`, not the last page. */
  function ScrapeArticles(url: string, web: Web, parseDate: string -> Option<int>,
                          resolve: (string, string) -> Option<string>): (r: seq<ScrapedArticle>)
    ensures |r| <= SelectionSize
    ensures web(FindLastPageUrl(url, web(url))).None? ==> r == []
    ensures forall i :: 0 <= i < |r| ==> r[i].title != "" && r[i].originalContent != ""
    ensures SelectedStubs(url, web, parseDate, resolve).None? ==> r == []
    ensures SelectedStubs(url, web, parseDate, resolve).Some? ==>
      var selected := SelectedStubs(url, web, parseDate, resolve).value;
      && |r| == |selected|
      && forall i :: 0 <= i < |r| ==> r[i] == Complete(selected[i], FullContent(web(selected[i].url)))
  {
    match SelectedStubs(url, web, parseDate, resolve)
    case None => []
    case Some(selected) =>
      var r := CompleteAll(selected, web);
      forall i | 0 <= i < |r| ensures r[i].title != "" && r[i].originalContent != "" {
        assert r[i] == Complete(selected[i], FullContent(web(selected[i].url)));
      }
      r
  }
}
