/** One article in a list (app/components/article-list-item.tsx): its status badge,
    the link it leads to, a short preview of its content and the "AI Enhanced"
    marker. */
module ArticleCard {
  import opened Wrappers
  import opened Strings

  /** The fields the card shows; the list pages fill in defaults before passing them. */
  datatype Card = Card(id: string, title: string, url: string, originalContent: string,
                       updatedContent: Option<string>, status: string)

  const Completed := "completed"
  const Processing := "processing"
  const Failed := "error"
  const Pending := "pending"

  /** The statuses with a badge of their own; every other status shows as pending. */
  predicate IsKnownStatus(status: string) {
    status == Completed || status == Processing || status == Failed
  }

  const CompletedColor := "bg-green-500/10 " + "text-green-500 " + "border-green-500/20"
  const ProcessingColor := "bg-yellow-500/10 " + "text-yellow-500 " + "border-yellow-500/20"
  const FailedColor := "bg-red-500/10 " + "text-red-500 " + "border-red-500/20"
  const PendingColor := "bg-blue-500/10 " + "text-blue-500 " + "border-blue-500/20"

  /** `getStatusColor`. */
  function StatusColor(status: string): string {
    if status == Completed then CompletedColor
    else if status == Processing then ProcessingColor
    else if status == Failed then FailedColor
    else PendingColor
  }

  /** `getStatusLabel`. */
  function StatusLabel(status: string): string {
    if status == Completed then "Completed"
    else if status == Processing then "Processing"
    else if status == Failed then "Failed"
    else "Pending"
  }

  /** The three statuses with a badge of their own get distinct colours and labels,
      and any other status looks exactly like "pending". */
  lemma StatusBadges(status: string, other: string)
    ensures !IsKnownStatus(status) ==> StatusColor(status) == StatusColor(Pending) && StatusLabel(status) == StatusLabel(Pending)
    ensures StatusColor(status) == StatusColor(other) <==> status == other || (!IsKnownStatus(status) && !IsKnownStatus(other))
    ensures StatusLabel(status) == StatusLabel(other) <==> status == other || (!IsKnownStatus(status) && !IsKnownStatus(other))
  {
    assert CompletedColor[3] == 'g' && ProcessingColor[3] == 'y' && FailedColor[3] == 'r' && PendingColor[3] == 'b';
    assert "Completed"[0] == 'C' && "Processing"[1] == 'r' && "Failed"[0] == 'F' && "Pending"[1] == 'e';
  }

  /** How much of the content the preview shows. */
  const PreviewLength := 120
  const Ellipsis := "..."
  const NoContent := "No content available"

  /** The preview line: a placeholder for empty content, the first 120 characters
      and an ellipsis for longer content, the content itself otherwise. */
  function Preview(content: string): (p: string)
    ensures |p| <= PreviewLength + |Ellipsis|
    ensures content == "" ==> p == NoContent
    ensures content != "" ==> StartsWith(p, content[..if |content| < PreviewLength then |content| else PreviewLength])
    ensures content != "" && |content| <= PreviewLength ==> p == content
    ensures |content| > PreviewLength ==> |p| == PreviewLength + |Ellipsis| && p[PreviewLength..] == Ellipsis
  {
    if content == "" then NoContent
    else if |content| > PreviewLength then content[..PreviewLength] + Ellipsis
    else content
  }

  /** The card links to the article's own dashboard page. */
  function LinkTarget(id: string): (href: string)
    ensures StartsWith(href, "/dashboard/") && href[|"/dashboard/"|..] == id
  {
    "/dashboard/" + id
  }

  /** The "AI Enhanced" marker shows exactly when there is non-empty rewritten content. */
  predicate ShowsEnhanced(card: Card) {
    Truthy(card.updatedContent)
  }
}

/** The two article lists (app/app/dashboard/page.tsx and app/app/articles/page.tsx):
    the search filters, the dashboard's counters, the entries that are rendered and
    the articles page's header line. */
module ArticleLists {
  import opened Wrappers
  import opened Strings
  import opened Seqs
  import ArticleCard

  /** An article as the API returns it; any field may be missing. */
  datatype Row = Row(id: Option<string>, title: Option<string>, url: Option<string>,
                     originalContent: Option<string>, updatedContent: Option<string>,
                     status: Option<string>)

  /** `text?.toLowerCase().includes(query.toLowerCase())`: false for a missing text. */
  predicate Mentions(text: Option<string>, query: string) {
    text.Some? && Contains(ToLower(text.value), ToLower(query))
  }

  /** The dashboard's test: the title mentions the query. */
  function ByTitle(query: string): Row -> bool {
    (row: Row) => Mentions(row.title, query)
  }

  /** The articles page's test: the title or the content mentions the query. */
  function ByText(query: string): Row -> bool {
    (row: Row) => Mentions(row.title, query) || Mentions(row.originalContent, query)
  }

  /** The dashboard's filter: exactly the rows whose title mentions the query, in
      order, each at its rank among them. */
  function TitleFilter(rows: seq<Row>, query: string): (r: seq<Row>)
    ensures IsSubsequence(r, rows)
    ensures |r| == Count(rows, ByTitle(query))
    ensures forall k :: 0 <= k < |r| ==> Mentions(r[k].title, query)
    ensures forall k :: 0 <= k < |rows| && Mentions(rows[k].title, query) ==>
              Count(rows[..k], ByTitle(query)) < |r| && r[Count(rows[..k], ByTitle(query))] == rows[k]
  {
    FilterIsSubsequence(rows, ByTitle(query));
    FilterCount(rows, ByTitle(query));
    forall k | 0 <= k < |rows| && Mentions(rows[k].title, query)
      ensures Count(rows[..k], ByTitle(query)) < |Filter(rows, ByTitle(query))|
      ensures Filter(rows, ByTitle(query))[Count(rows[..k], ByTitle(query))] == rows[k]
    {
      FilterAt(rows, ByTitle(query), k);
    }
    Filter(rows, ByTitle(query))
  }

  /** The articles page's filter: exactly the rows whose title or content mentions
      the query, in order, each at its rank among them. */
  function TextFilter(rows: seq<Row>, query: string): (r: seq<Row>)
    ensures IsSubsequence(r, rows)
    ensures |r| == Count(rows, ByText(query))
    ensures forall k :: 0 <= k < |r| ==> Mentions(r[k].title, query) || Mentions(r[k].originalContent, query)
    ensures forall k :: 0 <= k < |rows| && (Mentions(rows[k].title, query) || Mentions(rows[k].originalContent, query)) ==>
              Count(rows[..k], ByText(query)) < |r| && r[Count(rows[..k], ByText(query))] == rows[k]
  {
    FilterIsSubsequence(rows, ByText(query));
    FilterCount(rows, ByText(query));
    forall k | 0 <= k < |rows| && (Mentions(rows[k].title, query) || Mentions(rows[k].originalContent, query))
      ensures Count(rows[..k], ByText(query)) < |Filter(rows, ByText(query))|
      ensures Filter(rows, ByText(query))[Count(rows[..k], ByText(query))] == rows[k]
    {
      FilterAt(rows, ByText(query), k);
    }
    Filter(rows, ByText(query))
  }

  /** The empty string occurs in every string. */
  lemma ContainsEmpty(s: string)
    ensures Contains(s, "")
  {
    assert StartsAt(s, 0, "");
  }

  /** An empty search keeps every article that has a title. */
  lemma EmptyQueryKeepsTitled(rows: seq<Row>)
    ensures forall k :: 0 <= k < |rows| && rows[k].title.Some? ==> rows[k] in TitleFilter(rows, "")
  {
    forall k | 0 <= k < |rows| && rows[k].title.Some?
      ensures Mentions(rows[k].title, "")
    {
      ContainsEmpty(ToLower(rows[k].title.value));
    }
  }

  /** The articles page keeps everything the dashboard keeps for the same query, in
      the same order: filtering its result by title gives the dashboard's list. */
  lemma TextFilterWidens(rows: seq<Row>, query: string)
    ensures TitleFilter(TextFilter(rows, query), query) == TitleFilter(rows, query)
  {
    FilterMonotone(rows, ByTitle(query), ByText(query));
  }

  /** The dashboard's counters. */
  datatype Stats = Stats(total: nat, completed: nat, pending: nat, enhanced: nat)

  /** `a.status === status`; a missing status matches nothing. */
  function WithStatus(status: string): Row -> bool {
    (row: Row) => row.status == Some(status)
  }

  /** `a.updated_content` is truthy. */
  predicate IsEnhanced(row: Row) {
    Truthy(row.updatedContent)
  }

  /** `stats`: all zero while the list is not loaded; otherwise the number of rows,
      of rows whose status is exactly "completed" or "pending", and of rows with
      non-empty rewritten content. */
  function ComputeStats(articles: Option<seq<Row>>): (s: Stats)
    ensures articles.None? ==> s == Stats(0, 0, 0, 0)
    ensures articles.Some? ==>
      && s.total == |articles.value|
      && s.completed == Count(articles.value, WithStatus(ArticleCard.Completed))
      && s.pending == Count(articles.value, WithStatus(ArticleCard.Pending))
      && s.enhanced == Count(articles.value, IsEnhanced)
    ensures s.completed <= s.total && s.pending <= s.total && s.enhanced <= s.total
    ensures s.completed + s.pending <= s.total
  {
    match articles
    case None => Stats(0, 0, 0, 0)
    case Some(rows) =>
      CountDisjoint(rows, WithStatus(ArticleCard.Completed), WithStatus(ArticleCard.Pending));
      Stats(|rows|,
            Count(rows, WithStatus(ArticleCard.Completed)),
            Count(rows, WithStatus(ArticleCard.Pending)),
            Count(rows, IsEnhanced))
  }

  /** The counters of two lists together are the sums of their counters; so a row
      adds one to "enhanced" exactly when its rewritten content is non-empty, and
      one to "completed" or "pending" exactly when its status is that string. */
  lemma StatsOfConcat(a: seq<Row>, b: seq<Row>)
    ensures var s := ComputeStats(Some(a + b));
            var sa := ComputeStats(Some(a));
            var sb := ComputeStats(Some(b));
            && s.total == sa.total + sb.total
            && s.completed == sa.completed + sb.completed
            && s.pending == sa.pending + sb.pending
            && s.enhanced == sa.enhanced + sb.enhanced
  {
    CountAppend(a, b, WithStatus(ArticleCard.Completed));
    CountAppend(a, b, WithStatus(ArticleCard.Pending));
    CountAppend(a, b, IsEnhanced);
  }

  /** One row on its own: each counter is one exactly when the row qualifies. */
  lemma StatsOfOne(row: Row)
    ensures var s := ComputeStats(Some([row]));
            && s.total == 1
            && (s.completed == 1 <==> row.status == Some(ArticleCard.Completed))
            && (s.pending == 1 <==> row.status == Some(ArticleCard.Pending))
            && (s.enhanced == 1 <==> row.updatedContent.Some? && row.updatedContent.value != "")
  {
    assert [row][1..] == [];
  }

  /** An entry is rendered only with an id, a title and a url. */
  predicate Renderable(row: Row) {
    Truthy(row.id) && Truthy(row.title) && Truthy(row.url)
  }

  /** The card for a renderable entry, missing fields defaulted. */
  function ToCard(row: Row): (c: ArticleCard.Card)
    requires Renderable(row)
    ensures c.id == row.id.value && c.title == row.title.value && c.url == row.url.value
    ensures c.status == OrElse(row.status, ArticleCard.Pending)
    ensures ArticleCard.ShowsEnhanced(c) <==> Truthy(row.updatedContent)
  {
    ArticleCard.Card(
      row.id.value,
      OrElse(row.title, "Untitled"),
      OrElse(row.url, "#"),
      OrElse(row.originalContent, ""),
      if Truthy(row.updatedContent) then row.updatedContent else None,
      OrElse(row.status, ArticleCard.Pending))
  }

  /** The card an entry gives, if it is rendered. */
  function AsCard(row: Row): (c: Option<ArticleCard.Card>)
    ensures c.Some? <==> Renderable(row)
  {
    if Renderable(row) then Some(ToCard(row)) else None
  }

  /** The cards of a filtered list: the entry at index `k`, when renderable, gives
      the card at its rank among the renderable entries. */
  function Rendered(rows: seq<Row>): (cards: seq<ArticleCard.Card>)
    ensures |cards| == Count(rows, Renderable)
    ensures forall k :: 0 <= k < |rows| && Renderable(rows[k]) ==>
              Count(rows[..k], Renderable) < |cards| && cards[Count(rows[..k], Renderable)] == ToCard(rows[k])
    ensures forall k :: 0 <= k < |cards| ==> cards[k].id != "" && cards[k].title != "" && cards[k].url != ""
  {
    var cards := Collect(rows, AsCard);
    CountSame(rows, Present(AsCard), Renderable);
    forall k | 0 <= k <= |rows|
      ensures Count(rows[..k], Present(AsCard)) == Count(rows[..k], Renderable)
    {
      CountSame(rows[..k], Present(AsCard), Renderable);
    }
    forall i | 0 <= i < |cards| ensures cards[i].id != "" && cards[i].title != "" && cards[i].url != "" {
      CollectFrom(rows, AsCard, i);
    }
    cards
  }

  const Loading := "Loading articles..."

  /** The articles page's header line. */
  function HeaderLine(articles: Option<seq<Row>>): (line: string)
    ensures articles.None? ==> line == Loading
  {
    match articles
    case None => Loading
    case Some(rows) =>
      "Viewing " + NatToString(|rows|) + " scraped article" + (if |rows| != 1 then "s" else "")
  }

  /** The header counts the loaded articles and says "article" for exactly one of
      them, "articles" otherwise. */
  lemma HeaderLineCounts(rows: seq<Row>)
    ensures var line := HeaderLine(Some(rows));
            var digits := NatToString(|rows|);
            && StartsWith(line, "Viewing ")
            && ParseInt(line[|"Viewing "|..|"Viewing "| + |digits|]) == Some(|rows|)
            && (line[|line| - 1] == 's' <==> |rows| != 1)
  {
    var digits := NatToString(|rows|);
    var line := HeaderLine(Some(rows));
    var head := "Viewing " + digits + " scraped article";
    assert line[..|"Viewing "|] == "Viewing ";
    assert line[|"Viewing "|..|"Viewing "| + |digits|] == digits;
    ParseIntOfNatToString(|rows|);
    if |rows| == 1 {
      assert line == head;
      assert line[|line| - 1] == 'e';
    }
  }
}
