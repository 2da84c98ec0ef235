/** Enhancing one stored article (app/scripts/transform-article.ts): search Google for
    its title, scrape up to two of the hits, have the language model rewrite the
    article after them, append a numbered list of the references, and store the
    result together with one citation per reference. */
module TransformScript {
  import opened Wrappers
  import opened Strings
  import opened Seqs
  import opened GoogleSearch
  import opened ReferenceScraper
  import opened AiResponse

  /** A stored article as the API lists it. */
  datatype Article = Article(id: string, title: string, url: string, originalContent: string,
                             updatedContent: Option<string>, status: string)

  /** A request the script sends to the article API: a `PUT` of the article (its
      body has `updated_content` only when `content` is present) or a `POST` of one
      citation. */
  datatype ApiCall =
    | PutArticle(id: string, content: Option<string>, status: string)
    | PostCitation(id: string, citation: Citation)

  /** The requests `updateArticle` sent and the value it returned. */
  datatype Update = Update(calls: seq<ApiCall>, success: bool)

  /** How many search hits are asked for, and how many of them are scraped. */
  const ReferenceLimit := 2

  const Completed := "completed"
  const Failed := "error"

  /** The text of every citation the script posts. */
  const ReferenceNote := "Reference article used for formatting and style guidance"

  const ReferencesHeading := "\n\n## References\n\n"

  // ---------------------------------------------------------------------------
  // updateArticle

  /** `updateArticle(id, content, citations)`: one `PUT` marking the article
      completed; when it succeeds (`putOk`), one `POST` per citation, whose own
      failures are ignored. A `PUT` that throws counts as one that is not ok. */
  function UpdateArticle(id: string, content: string, citations: seq<Citation>, putOk: bool): (u: Update)
    ensures |u.calls| >= 1 && u.calls[0] == PutArticle(id, Some(content), Completed)
    ensures u.success <==> putOk
    ensures !putOk ==> |u.calls| == 1
    ensures putOk ==> |u.calls| == 1 + |citations|
    ensures forall k :: 1 <= k < |u.calls| ==> u.calls[k] == PostCitation(id, citations[k - 1])
  {
    if !putOk then Update([PutArticle(id, Some(content), Completed)], false)
    else Update([PutArticle(id, Some(content), Completed)] + Posts(id, citations), true)
  }

  /** One `POST` per citation, in order. */
  function Posts(id: string, citations: seq<Citation>): (calls: seq<ApiCall>)
    ensures |calls| == |citations|
    ensures forall k :: 0 <= k < |calls| ==> calls[k] == PostCitation(id, citations[k])
  {
    seq(|citations|, k requires 0 <= k < |citations| => PostCitation(id, citations[k]))
  }

  // ---------------------------------------------------------------------------
  // Reference articles and citations

  /** Scraping one hit: `fetch(url)` is what requesting `url` comes to. */
  function ScrapeHit(fetch: string -> Fetched): SearchResult -> Option<ReferenceArticle> {
    (hit: SearchResult) => ScrapeReference(hit.url, fetch(hit.url))
  }

  /** The loop over the first two hits: each is scraped, and the ones that yield an
      article are kept. The article of hit `k`, when it yields one, lands at its
      rank among the hits that do; failed scrapes are dropped. */
  function ScrapeAll(hits: seq<SearchResult>, fetch: string -> Fetched): (refs: seq<ReferenceArticle>)
    ensures |refs| == Count(hits, Present(ScrapeHit(fetch)))
    ensures forall k :: 0 <= k < |hits| && ScrapeHit(fetch)(hits[k]).Some? ==>
              && Count(hits[..k], Present(ScrapeHit(fetch))) < |refs|
              && refs[Count(hits[..k], Present(ScrapeHit(fetch)))] == ScrapeHit(fetch)(hits[k]).value
  {
    Collect(hits, ScrapeHit(fetch))
  }

  /** Every reference article is the scrape of one of the hits, and so long enough. */
  lemma ScrapeAllFromHits(hits: seq<SearchResult>, fetch: string -> Fetched)
    ensures forall a :: a in ScrapeAll(hits, fetch) ==>
              (exists j :: 0 <= j < |hits| && ScrapeReference(hits[j].url, fetch(hits[j].url)) == Some(a))
              && |a.content| >= MinContentLength
  {
    var refs := ScrapeAll(hits, fetch);
    forall a | a in refs
      ensures (exists j :: 0 <= j < |hits| && ScrapeReference(hits[j].url, fetch(hits[j].url)) == Some(a))
              && |a.content| >= MinContentLength
    {
      var i :| 0 <= i < |refs| && refs[i] == a;
      CollectFrom(hits, ScrapeHit(fetch), i);
      var j :| 0 <= j < |hits| && ScrapeHit(fetch)(hits[j]) == Some(a);
      assert ScrapeReference(hits[j].url, fetch(hits[j].url)) == Some(a);
    }
  }

  /** The citation posted for a reference article. */
  function ReferenceCitation(ref: ReferenceArticle): (c: Citation)
    ensures c.url == ref.url && c.title == ref.title && c.text == Some(ReferenceNote)
  {
    Citation(ref.url, ref.title, Some(ReferenceNote))
  }

  function ReferenceCitations(refs: seq<ReferenceArticle>): (cs: seq<Citation>)
    ensures |cs| == |refs|
    ensures forall k :: 0 <= k < |cs| ==> cs[k] == ReferenceCitation(refs[k])
  {
    seq(|refs|, k requires 0 <= k < |refs| => ReferenceCitation(refs[k]))
  }

  /** The line listing the citation numbered `n`: `n. [title](url)`. */
  function ReferenceLine(c: Citation, n: nat): string {
    NatToString(n) + ". [" + c.title + "](" + c.url + ")\n"
  }

  /** The content stored after a rewrite: the rewritten text, then, when there are
      citations, the heading and one numbered line per citation. */
  function WithReferences(updated: string, citations: seq<Citation>): string {
    if |citations| > 0 then updated + ReferencesHeading + ConcatNumbered(citations, 1, ReferenceLine)
    else updated
  }

  // ---------------------------------------------------------------------------
  // processArticle

  /** What the steps of `processArticle` come to: `keys`, `serp` and `cse` are the
      search's configuration and replies, `fetch` the outcome of requesting each
      hit, `reply` the model's reply text (`None` when the model call throws) and
      `putOk` whether the `PUT` succeeds. */
  datatype World = World(keys: Keys, serp: Reply, cse: Reply, fetch: string -> Fetched,
                         reply: Option<string>, putOk: bool)

  /** The reference articles scraped for `article`. */
  function References(article: Article, w: World): (refs: seq<ReferenceArticle>)
    ensures |refs| <= ReferenceLimit
  {
    var hits := Search(w.keys, ReferenceLimit, w.serp, w.cse);
    ScrapeAll(SliceTo(hits, ReferenceLimit), w.fetch)
  }

  /** `processArticle(article)`: the requests it sends. Without search hits or without
      any scraped reference, the article is stored unchanged and marked completed;
      when the model call throws, it is marked "error"; otherwise the rewrite with its
      list of references is stored, followed by one citation per reference. */
  function ProcessArticle(article: Article, w: World): (calls: seq<ApiCall>)
    ensures |calls| >= 1 && calls[0].PutArticle? && calls[0].id == article.id
    ensures forall k :: 1 <= k < |calls| ==> calls[k].PostCitation? && calls[k].id == article.id
    ensures calls[0].status == Failed <==> References(article, w) != [] && w.reply.None?
    ensures calls[0].status == Failed ==> calls == [PutArticle(article.id, None, Failed)]
    ensures References(article, w) == [] ==> calls == [PutArticle(article.id, Some(article.originalContent), Completed)]
    ensures |calls| <= 1 + ReferenceLimit
  {
    var refs := References(article, w);
    if refs == [] then
      UpdateArticle(article.id, article.originalContent, [], w.putOk).calls
    else
      match w.reply
      case None => [PutArticle(article.id, None, Failed)]
      case Some(text) =>
        var result := ParseResponse(text, article.originalContent);
        var citations := ReferenceCitations(refs);
        UpdateArticle(article.id, WithReferences(result.updatedContent, citations), citations, w.putOk).calls
  }

  /** The stored rewrite starts with the model's text, and the line for citation `i`
      follows the heading and the lines before it, numbered `i + 1`. */
  lemma ReferencesListed(updated: string, citations: seq<Citation>, i: nat)
    requires i < |citations|
    ensures var content := WithReferences(updated, citations);
            && StartsWith(content, updated)
            && StartsAt(content, |updated|, ReferencesHeading)
            && StartsAt(content, |updated| + |ReferencesHeading| + |ConcatNumbered(citations[..i], 1, ReferenceLine)|,
                         ReferenceLine(citations[i], i + 1))
  {
    ConcatNumberedAt(citations, 1, ReferenceLine, i);
    var before := ConcatNumbered(citations[..i], 1, ReferenceLine);
    var line := ReferenceLine(citations[i], i + 1);
    var after := ConcatNumbered(citations[i + 1..], i + 2, ReferenceLine);
    var lines := ConcatNumbered(citations, 1, ReferenceLine);
    assert lines == before + line + after;
    assert WithReferences(updated, citations) == updated + ReferencesHeading + lines;
    PartsAt(updated, ReferencesHeading, before, line, after);
  }

  /** Where the parts of `u + h + (b + l + a)` sit. */
  lemma PartsAt(u: string, h: string, b: string, l: string, a: string)
    ensures var c := u + h + (b + l + a);
            && StartsWith(c, u)
            && StartsAt(c, |u|, h)
            && StartsAt(c, |u| + |h| + |b|, l)
  {
    var c := u + h + (b + l + a);
    var at := |u| + |h| + |b|;
    assert c[..|u|] == u;
    assert c[|u|..|u| + |h|] == h;
    assert c[at..at + |l|] == l;
  }

  /** When the model answers, the rewrite is stored with every scraped reference listed
      under it, and, once stored, exactly the references are posted as citations, in
      order; citations the model itself proposed are never posted. */
  lemma RewriteStored(article: Article, w: World)
    requires w.reply.Some?
    ensures var calls := ProcessArticle(article, w);
            var refs := References(article, w);
            var updated := ParseResponse(w.reply.value, article.originalContent).updatedContent;
            refs != [] ==>
              && calls[0].status == Completed
              && calls[0].content == Some(WithReferences(updated, ReferenceCitations(refs)))
              && StartsWith(calls[0].content.value, updated)
              && (forall i :: 0 <= i < |refs| ==> Contains(calls[0].content.value, ReferenceLine(ReferenceCitation(refs[i]), i + 1)))
              && (w.putOk ==> |calls| == 1 + |refs|)
              && (!w.putOk ==> |calls| == 1)
              && (forall k :: 1 <= k < |calls| ==> calls[k].citation == ReferenceCitation(refs[k - 1]))
  {
    var refs := References(article, w);
    if refs != [] {
      var updated := ParseResponse(w.reply.value, article.originalContent).updatedContent;
      var citations := ReferenceCitations(refs);
      var content := WithReferences(updated, citations);
      assert ProcessArticle(article, w)[0].content == Some(content);
      forall i | 0 <= i < |refs|
        ensures Contains(content, ReferenceLine(ReferenceCitation(refs[i]), i + 1))
      {
        ReferencesListed(updated, citations, i);
        ContainsIff(content, ReferenceLine(citations[i], i + 1));
      }
      ReferencesListed(updated, citations, 0);
    }
  }
}
