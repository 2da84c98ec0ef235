# BeyondChats article pipeline, modelled in Dafny

This project models the core of the BeyondChats blog pipeline. Each stage is a
pure Dafny function, and the stages are:

- **The blog scraper.** It finds the last listing page, reads the article cards
  on it, picks the five oldest and fetches each one's full content.
- **The reference scraper.** It extracts the title and content of an article
  found by search.
- **The Google search wrapper.** It queries SerpAPI or Custom Search and keeps
  only blog-like links.
- **The language-model request and the parser for its reply.** The parser
  includes the citation regular expression.
- **The transformation script.** It rewrites one stored article after its
  references and stores the result with citations.
- **The `.env.local` loader** of the table-check script.
- **The view helpers of the two article lists.** These are the filters,
  counters, status badges, preview line and header line.

Effects become parameters:

- a fetched page is an abstract `Markup.Document`, mapping each selector to its
  matches;
- a search provider's answer is a `GoogleSearch.Reply`;
- the model's reply text is an `Option<string>`, where `None` means the call threw;
- whether the `PUT` succeeded is a `bool`;
- date parsing and URL resolution are functions passed in.

JavaScript's string operations are written out over `seq<char>`: `trim`,
`split`/`join`, `includes`, first-occurrence `replace`, `substring`,
`toLowerCase` and `parseInt` (which, without a radix, reads a "0x" prefix as
hexadecimal). The citation pattern
`/Title:\s*(.+?)\s*\|\s*URL:\s*(.+?)(?:\s*\|\s*Text:\s*(.+))?$/` is modelled in
two ways: as the backtracking search a regular-expression engine performs
(`CitationPattern.MatchLine`), and as a declarative predicate saying what a match
is (`CitationPattern.IsMatch`). The two are proved to agree on whether a line
matches and on where the reported match starts: at the leftmost `Title:` from
which a match exists. For the line format the system prompt asks for,
`- Title: t | URL: u | Text: x` with the text part optional, the captures are
proved as well. The search reports the title up to the first bar, the URL up to
` | Text:`, and the text when it is there. So such a line reads back as the
citation it was written from (`AiResponse.ParseLayoutLine`).

Lists built by `filter`, or by a loop that pushes only some results, are described
by position. An element kept from index `k` of the input sits at index
`Count(xs[..k], p)` of the output: its rank among the kept elements. Together with
the output's length, this fixes the output, in order and with repeats.
`Seqs.FilterAt` proves it for `filter`, and `Wrappers.Collect` for a loop that
pushes every non-null result.

Modules follow the source files:

| Module | Source |
|---|---|
| `Scraper`, `StableSort`, `Markup` | `app/lib/scraper.ts` |
| `ReferenceScraper` | `app/lib/reference-scraper.ts` |
| `GoogleSearch` | `app/lib/google-search.ts` |
| `AiPrompt`, `AiResponse`, `CitationPattern` | `app/lib/ai.ts` |
| `TransformScript` | `app/scripts/transform-article.ts` |
| `EnvFile` | `app/scripts/check-tables.ts` |
| `ArticleCard` | `app/components/article-list-item.tsx` |
| `ArticleLists` | `app/app/dashboard/page.tsx` and `app/app/articles/page.tsx` |

`Wrappers`, `Seqs` and `Strings` hold the shared option type, sequence helpers
and string operations.

Three things the scraper does not do, and the model does not either:

- The scraper does not de-duplicate or back-fill from earlier pages.
- It keys undated cards as time 0, so they sort before dated ones.
- It has no link-pattern fallback when no card is found.

## Model

| member | source | states |
|---|---|---|
| Scraper.PageLinks | app/lib/scraper.ts:57-65 | A pagination anchor gives a link exactly when it has a non-empty `href` and `parseInt` reads its trimmed text. Links follow document order: the usable anchor at index `k` gives the link at its rank among the usable anchors, with the anchor's `href` as URL and the number read from its text as page number. |
| Strings.ParseIntHex | app/lib/scraper.ts:60 | `parseInt` without a radix reads digits after "0x" as hexadecimal. |
| Scraper.ReduceMaxIsFirstMax | app/lib/scraper.ts:73-75 | The reduction returns a link with the largest page number. No earlier link has that number, because the strict `>` keeps the first on ties. |
| Scraper.FindLastPageUrl | app/lib/scraper.ts:47-82 | The result is the base URL when the page cannot be fetched or has no usable pagination link. Otherwise it is the URL of the first link with the highest page number. |
| Scraper.ReadCard | app/lib/scraper.ts:107-131 | A card is skipped exactly when its trimmed title or its link is empty. It throws exactly when it has both, its link does not start with "http" and resolving the link against the listing URL throws. An emitted stub has the card's title and excerpt, its author or "BeyondChats Team" when that is empty, no date for an empty date text and the parsed date otherwise. Its URL is an "http" link as is, and any other link resolved against the listing URL the scrape started from. |
| Scraper.ReadCards | app/lib/scraper.ts:106-131 | The loop fails exactly when some card throws. Otherwise the stubs are exactly the ones the cards emit, in card order, each with a title and an author. |
| Scraper.SelectOldest | app/lib/scraper.ts:133-140 | Exactly min(5, n) stubs are selected. They are a prefix of the stable key-sorted list and a sub-multiset of the input, in ascending key order. |
| Scraper.SelectionKeepsOldest | app/lib/scraper.ts:133-140 | No stub left out has a smaller date key than a selected one. |
| Scraper.SelectionStable | app/lib/scraper.ts:134-139 | Stubs with equal keys, in particular all undated ones, keep their listing order through the sort. |
| StableSort.SortBySorted | app/lib/scraper.ts:134-139 | The comparator sort yields ascending keys. |
| StableSort.SortByStable | app/lib/scraper.ts:134-139 | For every key, the elements carrying it appear in their input order. |
| Scraper.FullContent | app/lib/scraper.ts:12-45 | The content is that of the first content selector whose trimmed first match exceeds 100 characters. Otherwise it is the paragraph texts joined by a blank line and trimmed, and "" when the fetch throws. |
| Scraper.Complete | app/lib/scraper.ts:146-155 | The stored content is the full content, else the excerpt, else the title. The other fields come from the stub, and the content is never empty for a titled stub. |
| Scraper.SelectedStubs | app/lib/scraper.ts:90-140 | An unreachable last page gives nothing. Otherwise the scrape fails exactly when a card on that page throws, and the selection is the five oldest of the stubs its cards emit, with links resolved against the starting URL. There are at most five stubs, all titled. |
| Scraper.CompleteAll | app/lib/scraper.ts:144-155 | There is one article per selected stub, in order, each completed with that stub's fetched content. |
| Scraper.ScrapeArticles | app/lib/scraper.ts:84-174 | At most five articles, each titled and with content, matching the selected stubs one for one. Nothing is returned when the listing fetch or a link resolution throws. |
| ReferenceScraper.PickTitle | app/lib/reference-scraper.ts:39-50 | The title is the first selector's trimmed first match longer than 5 characters. When there is none, it is the trimmed text of all `title` elements, else the URL. |
| ReferenceScraper.ContentLoop | app/lib/reference-scraper.ts:64-75 | The loop's content is unchanged when no later selector matches. Otherwise it is the text of some matching selector. |
| ReferenceScraper.ContentCascade | app/lib/reference-scraper.ts:64-75 | The loop stops at the first matching selector whose text exceeds 200 characters. When there is none, the content is the last matching selector's text. |
| ReferenceScraper.LongParagraphs | app/lib/reference-scraper.ts:79-82 | The fallback keeps exactly the trimmed paragraph texts longer than 20 characters, in document order. Each kept text sits at its rank among them. |
| ReferenceScraper.Paragraphs | app/lib/reference-scraper.ts:79-84 | The fallback content is the kept paragraphs joined by a blank line and trimmed. It is "" when no paragraph is long enough. |
| ReferenceScraper.ExtractedContent | app/lib/reference-scraper.ts:77-85 | Cascade content shorter than 200 characters is replaced by the paragraph fallback. Exactly 200 characters is kept. |
| ReferenceScraper.Truncated | app/lib/reference-scraper.ts:92-96 | The title is a prefix of at most 500 characters and the content a prefix of at most 10000. Short texts are unchanged, and content of at least 100 characters stays at least that long. |
| ReferenceScraper.ScrapeReference | app/lib/reference-scraper.ts:12-101 | An article is returned exactly when the fetch succeeds with an ok response and the extracted content has at least 100 characters. It then holds the truncated title, the URL and the truncated content. |
| GoogleSearch.TwoSegmentsIff | app/lib/google-search.ts:33 | The anchored tail `[^\/]+\/[^\/]+$` matches exactly two non-empty slash-free segments joined by one slash. |
| GoogleSearch.IsBlogLinkIff | app/lib/google-search.ts:26-35 | A lowercased link is kept exactly when it contains "/blog/", "/article/" or "/post/", or ".com/" followed by two slash-free segments up to the end. |
| GoogleSearch.KeptHasLink | app/lib/google-search.ts:28-41 | A kept item has a link, and its result's URL is that link, which passes the filter once lowercased. |
| GoogleSearch.Shape | app/lib/google-search.ts:24-41 | The number of results is what `slice(0, maxResults)` leaves of the kept items, and a negative `maxResults` counts back from the end. The kept item at index `k` of the list gives the result at its rank, in provider order. Every result is the defaulted form of a kept item, with a non-empty blog-like URL. |
| GoogleSearch.ShapeKeepsAll | app/lib/google-search.ts:36 | When no more items pass the filter than were asked for, every kept item is returned, in provider order. |
| GoogleSearch.ShapePrefix | app/lib/google-search.ts:36 | Asking for more results keeps the ones returned for fewer, in front. |
| GoogleSearch.Search | app/lib/google-search.ts:11-82 | The result has at most `maxResults` entries, all with a non-empty blog-like URL. |
| GoogleSearch.SerpListDecides | app/lib/google-search.ts:17-46 | Once SerpAPI is configured and answers with a result list, Custom Search has no influence, even when that list is filtered to nothing. |
| GoogleSearch.CustomSearchFallback | app/lib/google-search.ts:48-73 | Without a SerpAPI list, a configured Custom Search that answers with a result list decides the result. |
| GoogleSearch.NoProviderNoResults | app/lib/google-search.ts:48-81 | Without a SerpAPI list and without both Custom Search keys, the search returns nothing. |
| AiPrompt.BuildRequest | app/lib/ai.ts:31-66 | The system prompt carries the reference brief right after its opening exactly when there are references. The prompt starts with the article and continues with the reference list exactly when there are references. |
| AiPrompt.SystemPromptWithBrief | app/lib/ai.ts:31-66 | With references, the prompt starts with the opening, the brief follows it, and the prompt ends with the reply format. |
| AiPrompt.SystemPromptWithoutBrief | app/lib/ai.ts:31-66 | Without references, the prompt starts with the opening and the reply format directly follows it. |
| AiPrompt.PromptWithReferences | app/lib/ai.ts:33-51 | The article comes first, then the reference-list heading, then the blocks of the references numbered from 1, and the formatting instructions close the prompt. |
| AiPrompt.PromptWithoutReferences | app/lib/ai.ts:33-54 | The article is followed only by the generic request, with no reference list. |
| AiPrompt.Excerpt | app/lib/ai.ts:43 | A reference's excerpt is its content's prefix of at most 3000 characters, and the whole content when shorter. |
| AiPrompt.BlocksInOrder | app/lib/ai.ts:39-44 | The block of the reference at index `i` is numbered `i + 1` and sits between the blocks of the references before and after it. |
| CitationPattern.MatchLine | app/lib/ai.ts:91 | Every match the search reports is a match of the pattern. |
| CitationPattern.MatchLineExact | app/lib/ai.ts:91 | The search finds a match exactly when the pattern can match the line, starting at the leftmost `Title:` from which one exists. |
| CitationPattern.MatchLayout | app/lib/ai.ts:91 | On a line in the documented citation format, the search reports the lazy title up to the first bar and the lazy URL up to ` \| Text:`, and it takes the optional text group whenever that part is present. The captures are exactly the fields the line was written from. |
| AiResponse.ToCitation | app/lib/ai.ts:93-97 | The URL is the trimmed URL capture. The title is the trimmed title capture, and "Unknown" when that is blank. The text is the trimmed text capture exactly when its group took part, and absent otherwise. |
| AiResponse.ParseCitationLineIff | app/lib/ai.ts:91-92 | A line yields a citation exactly when the pattern can match it. |
| AiResponse.ParseLayoutLine | app/lib/ai.ts:91-97 | A line written in the format the system prompt asks for (title, URL, optional text; non-empty fields with no edge white space, no bar in the title or URL) reads back as the citation it was written from, with the text absent exactly when the line has no text part. |
| AiResponse.LineCitations | app/lib/ai.ts:90-99 | There is one citation per matching line. The line at index `k`, when it matches, gives the citation at its rank among the matching lines, and every citation has a title. |
| AiResponse.CitationLines | app/lib/ai.ts:85-88 | Exactly the lines whose trimmed text starts with "-" are read, in order, each at its rank among them. |
| AiResponse.Sections | app/lib/ai.ts:75 | There is one section per piece of the reply cut at every "###", and section `k` is piece `k` trimmed. |
| AiResponse.ParseResponse | app/lib/ai.ts:105-112 | The reported change is the rewritten content's length minus the original's. |
| AiResponse.AbsorbAllUpdated | app/lib/ai.ts:81-83 | The content is the trimmed body of the last "Updated Content" section, or unchanged when there is none. |
| AiResponse.AbsorbAllSummary | app/lib/ai.ts:100-101 | The summary is the trimmed body of the last "Changes Summary" section, or the default when there is none. |
| AiResponse.AbsorbAllCitations | app/lib/ai.ts:84-99 | The citations are those of every "Citations" section, in order. |
| AiResponse.ParseResponseSpec | app/lib/ai.ts:75-112 | The whole result, field by field, in terms of the sections: last update, all citations in order, last summary or defaults. |
| AiResponse.AllCitationsTitled | app/lib/ai.ts:94 | Every parsed citation has a non-empty title. |
| TransformScript.UpdateArticle | app/scripts/transform-article.ts:41-79 | One `PUT` with status "completed" comes first. Only when it succeeds is there one `POST` per citation, in order, and the result is true exactly then. |
| TransformScript.Posts | app/scripts/transform-article.ts:60-72 | There is one citation request per citation, in order. |
| TransformScript.ScrapeAll | app/scripts/transform-article.ts:99-110 | Failed scrapes are dropped, and the article of each hit that yields one sits at its rank among those hits, in hit order. |
| TransformScript.ScrapeAllFromHits | app/scripts/transform-article.ts:100-110 | Every reference is exactly the scrape of one of the hits, and has at least 100 characters of content. |
| TransformScript.ReferenceCitations | app/scripts/transform-article.ts:129-133 | There is one citation per reference, with its URL, its title and the fixed note. |
| TransformScript.ProcessArticle | app/scripts/transform-article.ts:81-169 | The first request is a `PUT` of the article, and the rest are citation posts for it. The article is marked "error", with nothing else sent, exactly when references exist and the model call throws. Without references, exactly one request is sent: the `PUT` that stores the original content as completed. |
| TransformScript.ReferencesListed | app/scripts/transform-article.ts:136-142 | The stored text starts with the rewrite, then the References heading. The line for citation `i` follows the lines before it, numbered `i + 1`. |
| TransformScript.RewriteStored | app/scripts/transform-article.ts:128-146 | When references were scraped and the model answers, the stored content is exactly the rewrite, then the references heading, then one numbered line per reference in order (`WithReferences`), marked completed. After a successful `PUT`, exactly the references are posted as citations, in order; after a failed one, nothing else is sent. |
| EnvFile.Unquote | app/scripts/check-tables.ts:15 | One quote of either kind is dropped from each end. A quote at only one end is dropped there, and a value that is a single quote character becomes "". |
| EnvFile.SplitTail | app/scripts/check-tables.ts:13-15 | The first piece is the text before the first "=", and the other pieces joined back are the text after it. |
| EnvFile.ParseLineSpec | app/scripts/check-tables.ts:11-15 | A line assigns exactly when its trimmed text is not a comment and has an "=" after at least one character. The name and value are the trimmed text around the first "=", with the value unquoted. |
| EnvFile.Set | app/scripts/check-tables.ts:16-18 | A name is set only when it has no non-empty value yet. Other names are untouched. |
| EnvFile.SetAllKeeps | app/scripts/check-tables.ts:10-21 | A non-empty value already in the environment is never replaced. |
| EnvFile.SetAllUntouched | app/scripts/check-tables.ts:10-21 | A name no line assigns keeps its presence and value. |
| EnvFile.SetAllFirst | app/scripts/check-tables.ts:10-21 | A name without a non-empty value ends up with the first non-empty value the file assigns to it, or "" when every assignment is empty. |
| ArticleCard.StatusBadges | app/components/article-list-item.tsx:24-48 | The three known statuses get distinct colours and labels, and any other status looks exactly like "pending". |
| ArticleCard.Preview | app/components/article-list-item.tsx:68 | Empty content shows the placeholder, and content of at most 120 characters is shown whole. Longer content shows its first 120 characters and "...". |
| ArticleCard.LinkTarget | app/components/article-list-item.tsx:51 | The card links to "/dashboard/" followed by the article id. |
| ArticleLists.TitleFilter | app/app/dashboard/page.tsx:64-66 | The dashboard keeps exactly the articles whose lowercased title contains the lowercased query, in order and with repeats. Each kept article sits at its rank among them. |
| ArticleLists.EmptyQueryKeepsTitled | app/app/dashboard/page.tsx:64-66 | An empty search keeps every article that has a title. |
| ArticleLists.ComputeStats | app/app/dashboard/page.tsx:68-73 | All counters are zero before loading. Afterwards the total is the list's length, "completed" and "pending" count the rows whose status is exactly that string, and "enhanced" counts the rows with non-empty rewritten content. No counter exceeds the total. |
| ArticleLists.StatsOfConcat | app/app/dashboard/page.tsx:68-73 | The counters of two lists together are the sums of their counters. |
| ArticleLists.StatsOfOne | app/app/dashboard/page.tsx:69-72 | A single row counts once, and counts as completed, pending or enhanced exactly when its status is that string or its rewritten content is non-empty. |
| ArticleLists.Rendered | app/app/dashboard/page.tsx:157-170 | There is one card per entry with an id, a title and a url. The renderable entry at index `k` gives the card at its rank among them, with status "pending" when it has none, and every card's id, title and url are non-empty. |
| ArticleLists.ToCard | app/app/dashboard/page.tsx:162-169 | A card keeps the entry's id, title and url, and its status defaults to "pending". The card shows "AI Enhanced" exactly when the rewritten content is non-empty. |
| ArticleLists.TextFilter | app/app/articles/page.tsx:36-39 | The articles page keeps exactly the articles whose title or content mentions the query, in order and with repeats. Each kept article sits at its rank among them. |
| ArticleLists.TextFilterWidens | app/app/articles/page.tsx:36-39 | Filtering the articles page's list by title gives the dashboard's list for the same query. |
| ArticleLists.HeaderLineCounts | app/app/articles/page.tsx:52 | The header line is "Viewing " and the count, which `parseInt` reads back. It ends in "s" exactly when the count is not one. |

## Left out

- **Fetching and parsing.** `fetch`, cheerio's parser and its selector engine are not modelled. A page is given as what each selector matches.
- **Element removal.** The reference scraper's removal of scripts, styles and navigation is not modelled; element texts are taken as already stripped.
- **Date parsing and URL resolution.** These are parameters. So are the `User-Agent` header, the request URLs and `encodeURIComponent`.
- **The model call.** The OpenAI call itself, its model name and its network behaviour are left out. Its reply text, or the fact that it threw, is a parameter of `TransformScript.ProcessArticle`. The request built for it is `AiPrompt.BuildRequest`.
- **Database and routes.** SQL, including the scraping log inserts, and the API routes behind the requests are out of scope. The requests are listed as `TransformScript.ApiCall` values.
- **Script and component plumbing.** `fetchArticles`, `main` and the 2-second delay between articles are left out, as are `process.exit`, reading environment variables and file existence, and logging. The same goes for React rendering, data fetching, toasts and `toLocaleDateString`.
- **Character model.** String lengths count Dafny characters rather than UTF-16 code units, and `toLowerCase` maps ASCII letters only.
- **Non-string JSON fields.** Search results whose `link`, `title` or `snippet` are not strings are not modelled. Neither is a fractional `maxResults`.
- **Merged early returns.** `TransformScript.ProcessArticle`: an empty search and a search whose hits all fail to scrape are one path in the model. Both send the same single `PUT` of the original content.
- **Citations proposed by the model.** The parsed reply's citations are computed but never posted, as in the source.
- `TransformScript.ProcessArticle`: the requests sent after a failed `PUT` are the same in the model, but the success flag is not reported, since the source only logs it.
- `GoogleSearch.Search`: the contract bounds and filters the results but does not restate which provider answered. That choice is stated separately by `GoogleSearch.SerpListDecides`, `GoogleSearch.CustomSearchFallback` and `GoogleSearch.NoProviderNoResults`.
- `CitationPattern.MatchLine`: its contract says only that the reported match is a match of the pattern. Which captures the engine prefers (the shortest title, then the shortest URL, with the optional group tried first) is proved only for the documented line format, by `CitationPattern.MatchLayout`. A statement for every line would need an order on all matches of the pattern.
- `Strings.ParseInt`: page numbers are exact integers. JavaScript's `parseInt` returns a double, so digit strings above 2^53 can round to the same number, and very long ones give `Infinity`. In `Scraper.FindLastPageUrl`, two such huge page numbers could tie in JavaScript, and the first link would be kept, while the model tells them apart.
