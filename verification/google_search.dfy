/** Looking up articles on Google (app/lib/google-search.ts): SerpAPI is asked first,
    Google Custom Search second, and each provider's list is cut down to the links that
    look like blog posts, then to the first `maxResults` of them. */
module GoogleSearch {
  import opened Wrappers
  import opened Strings
  import opened Seqs

  /** An entry of a provider's result list; each field may be missing. */
  datatype RawResult = RawResult(title: Option<string>, link: Option<string>, snippet: Option<string>)

  /** An entry of the search result. */
  datatype SearchResult = SearchResult(title: string, url: string, snippet: string)

  /** What asking a provider came to: the request or the JSON decoding threw, or a
      body came back whose result list (`organic_results` for SerpAPI, `items` for
      Custom Search) is an array (`Some`) or is missing or not an array (`None`). */
  datatype Reply = Threw | Answered(list: Option<seq<RawResult>>)

  /** The configured credentials: `SERP_API_KEY`, `GOOGLE_API_KEY` and `GOOGLE_CX`. */
  datatype Keys = Keys(serpApiKey: Option<string>, googleApiKey: Option<string>, googleCx: Option<string>)

  /** The number of results asked for when the caller names none. */
  const DefaultMaxResults := 2

  const BlogPath := "/blog/"
  const ArticlePath := "/article/"
  const PostPath := "/post/"
  const ComDomain := ".com/"

  // ---------------------------------------------------------------------------
  // Which links are kept

  predicate SlashFree(s: string) {
    forall i :: 0 <= i < |s| ==> s[i] != '/'
  }

  /** `s` is two non-empty slash-free segments joined by one slash. */
  ghost predicate IsTwoSegments(s: string) {
    exists k :: 0 < k < |s| - 1 && s[k] == '/' && SlashFree(s[..k]) && SlashFree(s[k + 1..])
  }

  /** `[^\/]+\/[^\/]+$` matched at the start of `s`: the first slash has text on both
      sides, and there is no other. */
  function TwoSegments(s: string): bool {
    match IndexOfFrom(s, "/", 0)
    case None => false
    case Some(k) => 0 < k < |s| - 1 && SlashFree(s[k + 1..])
  }

  lemma TwoSegmentsIff(s: string)
    ensures TwoSegments(s) <==> IsTwoSegments(s)
  {
    match IndexOfFrom(s, "/", 0)
    case None =>
      if IsTwoSegments(s) {
        var k :| 0 < k < |s| - 1 && s[k] == '/' && SlashFree(s[..k]) && SlashFree(s[k + 1..]);
        SlashAt(s, k);
      }
    case Some(k) =>
      SlashAt(s, k);
      forall j | 0 <= j < k ensures s[..k][j] != '/' {
        SlashAt(s, j);
      }
      if IsTwoSegments(s) {
        var k' :| 0 < k' < |s| - 1 && s[k'] == '/' && SlashFree(s[..k']) && SlashFree(s[k' + 1..]);
        SlashAt(s, k');
      }
  }

  /** A one-character pattern occurs exactly where that character is. */
  lemma SlashAt(s: string, j: int)
    ensures StartsAt(s, j, "/") <==> 0 <= j < |s| && s[j] == '/'
  {
    if 0 <= j < |s| {
      assert s[j..j + 1] == [s[j]];
    }
  }

  /** The link matches `\.com\/[^\/]+\/[^\/]+$` somewhere. */
  ghost predicate IsComPath(url: string) {
    exists i :: StartsAt(url, i, ComDomain) && TwoSegments(url[i + |ComDomain|..])
  }

  /** The regular-expression search, trying each start position from `i` on. */
  function ComPathFrom(url: string, i: nat): bool
    requires i <= |url|
    decreases |url| - i
  {
    if StartsAt(url, i, ComDomain) && TwoSegments(url[i + |ComDomain|..]) then true
    else if i == |url| then false
    else ComPathFrom(url, i + 1)
  }

  lemma {:induction false} ComPathFromIff(url: string, i: nat)
    requires i <= |url|
    ensures ComPathFrom(url, i) <==> exists j :: i <= j && StartsAt(url, j, ComDomain) && TwoSegments(url[j + |ComDomain|..])
    decreases |url| - i
  {
    if !(StartsAt(url, i, ComDomain) && TwoSegments(url[i + |ComDomain|..])) && i < |url| {
      ComPathFromIff(url, i + 1);
      if j :| i <= j && StartsAt(url, j, ComDomain) && TwoSegments(url[j + |ComDomain|..]) {
        assert j != i;
      }
    }
  }

  /** The filter both providers' lists go through, on the lowercased link. */
  predicate IsBlogLink(url: string) {
    || Contains(url, BlogPath)
    || Contains(url, ArticlePath)
    || Contains(url, PostPath)
    || ComPathFrom(url, 0)
  }

  /** A link is kept exactly when one of the three path markers occurs in it, or it
      ends in ".com/" followed by two non-empty slash-free segments. */
  lemma IsBlogLinkIff(url: string)
    ensures IsBlogLink(url) <==>
              || (exists j :: StartsAt(url, j, BlogPath))
              || (exists j :: StartsAt(url, j, ArticlePath))
              || (exists j :: StartsAt(url, j, PostPath))
              || (exists i :: StartsAt(url, i, ComDomain) && IsTwoSegments(url[i + |ComDomain|..]))
  {
    ContainsIff(url, BlogPath);
    ContainsIff(url, ArticlePath);
    ContainsIff(url, PostPath);
    ComPathFromIff(url, 0);
    forall i | StartsAt(url, i, ComDomain)
      ensures TwoSegments(url[i + |ComDomain|..]) <==> IsTwoSegments(url[i + |ComDomain|..])
    {
      TwoSegmentsIff(url[i + |ComDomain|..]);
    }
  }

  /** `item.link?.toLowerCase() || ""`. */
  function LinkText(item: RawResult): string {
    ToLower(OrElse(item.link, ""))
  }

  predicate Kept(item: RawResult) {
    IsBlogLink(LinkText(item))
  }

  /** Missing fields become "", and the url keeps the link's original case. */
  function ToResult(item: RawResult): SearchResult {
    SearchResult(OrElse(item.title, ""), OrElse(item.link, ""), OrElse(item.snippet, ""))
  }

  /** A kept item always has a link. */
  lemma KeptHasLink(item: RawResult)
    requires Kept(item)
    ensures Truthy(item.link) && ToResult(item).url == item.link.value
    ensures IsBlogLink(ToLower(ToResult(item).url))
  {
    if !Truthy(item.link) {
      assert LinkText(item) == "";
      assert !ComPathFrom("", 0);
    }
  }

  // ---------------------------------------------------------------------------
  // One provider's list, and the choice of provider

  /** `res` is the result made from a kept item of `list`. */
  ghost predicate FromKeptItem(list: seq<RawResult>, res: SearchResult) {
    exists item :: item in list && Kept(item) && res == ToResult(item)
  }

  /** How many entries `slice(0, end)` leaves of `n`: a negative end counts back
      from the end. */
  function SliceLength(n: nat, end: int): nat {
    if end >= 0 then (if end < n then end else n)
    else if -end < n then n + end else 0
  }

  /** `list.filter(isBlogLink).slice(0, maxResults).map(toResult)`: the kept items,
      in the provider's order and cut to `maxResults`, each turned into a result. */
  function Shape(list: seq<RawResult>, maxResults: int): (r: seq<SearchResult>)
    ensures |r| == SliceLength(Count(list, Kept), maxResults)
    ensures forall k :: 0 <= k < |list| && Kept(list[k]) && Count(list[..k], Kept) < |r| ==>
              r[Count(list[..k], Kept)] == ToResult(list[k])
    ensures forall k :: 0 <= k < |r| ==> r[k].url != "" && IsBlogLink(ToLower(r[k].url))
    ensures forall k :: 0 <= k < |r| ==> FromKeptItem(list, r[k])
  {
    var kept := Filter(list, Kept);
    var cut := SliceTo(kept, maxResults);
    FilterCount(list, Kept);
    var r := seq(|cut|, k requires 0 <= k < |cut| => ToResult(cut[k]));
    ShapeOrder(list, cut, r);
    ShapeItems(list, cut, r);
    r
  }

  /** The results made from a prefix of the kept items follow the provider's order. */
  lemma ShapeOrder(list: seq<RawResult>, cut: seq<RawResult>, r: seq<SearchResult>)
    requires |cut| <= |Filter(list, Kept)| && cut == Filter(list, Kept)[..|cut|]
    requires |r| == |cut| && forall k :: 0 <= k < |r| ==> r[k] == ToResult(cut[k])
    ensures forall k :: 0 <= k < |list| && Kept(list[k]) && Count(list[..k], Kept) < |r| ==>
              r[Count(list[..k], Kept)] == ToResult(list[k])
  {
    forall k | 0 <= k < |list| && Kept(list[k]) && Count(list[..k], Kept) < |r|
      ensures r[Count(list[..k], Kept)] == ToResult(list[k])
    {
      FilterAt(list, Kept, k);
    }
  }

  /** The results made from a prefix of the kept items are blog links of the list. */
  lemma ShapeItems(list: seq<RawResult>, cut: seq<RawResult>, r: seq<SearchResult>)
    requires |cut| <= |Filter(list, Kept)| && cut == Filter(list, Kept)[..|cut|]
    requires |r| == |cut| && forall k :: 0 <= k < |r| ==> r[k] == ToResult(cut[k])
    ensures forall k :: 0 <= k < |r| ==> r[k].url != "" && IsBlogLink(ToLower(r[k].url))
    ensures forall k :: 0 <= k < |r| ==> FromKeptItem(list, r[k])
  {
    var kept := Filter(list, Kept);
    forall k | 0 <= k < |r|
      ensures r[k].url != "" && IsBlogLink(ToLower(r[k].url))
      ensures FromKeptItem(list, r[k])
    {
      var item := cut[k];
      assert item == kept[k];
      assert Kept(item) && item in list;
      KeptHasLink(item);
      assert FromKeptItem(list, r[k]);
    }
  }

  /** `searchGoogle(query, maxResults)`. The query and the keys only shape the
      requests; `serp` and `cse` are what the two requests come to. A provider is
      asked only when its keys are set, and its answer is used only when it carries
      a result list. */
  function Search(keys: Keys, maxResults: int, serp: Reply, cse: Reply): (r: seq<SearchResult>)
    ensures 0 <= maxResults ==> |r| <= maxResults
    ensures forall k :: 0 <= k < |r| ==> r[k].url != "" && IsBlogLink(ToLower(r[k].url))
  {
    if Truthy(keys.serpApiKey) && serp.Answered? && serp.list.Some? then Shape(serp.list.value, maxResults)
    else if Truthy(keys.googleApiKey) && Truthy(keys.googleCx) && cse.Answered? && cse.list.Some? then Shape(cse.list.value, maxResults)
    else []
  }

  /** A list with no more blog links than asked for is returned whole: every kept
      item, in the provider's order. */
  lemma ShapeKeepsAll(list: seq<RawResult>, maxResults: int)
    requires Count(list, Kept) <= maxResults
    ensures |Shape(list, maxResults)| == Count(list, Kept)
    ensures forall k :: 0 <= k < |list| && Kept(list[k]) ==>
              && Count(list[..k], Kept) < |Shape(list, maxResults)|
              && Shape(list, maxResults)[Count(list[..k], Kept)] == ToResult(list[k])
  {
    forall k | 0 <= k < |list| && Kept(list[k])
      ensures Count(list[..k], Kept) < Count(list, Kept)
    {
      FilterAt(list, Kept, k);
      FilterCount(list, Kept);
    }
  }

  /** Asking for more results keeps the ones returned for fewer, in front. */
  lemma ShapePrefix(list: seq<RawResult>, n: nat, m: nat)
    requires n <= m
    ensures |Shape(list, n)| <= |Shape(list, m)|
    ensures Shape(list, n) == Shape(list, m)[..|Shape(list, n)|]
  {
    var kept := Filter(list, Kept);
    var short := SliceTo(kept, n);
    var long := SliceTo(kept, m);
    assert short == long[..|short|];
  }

  /** Once SerpAPI answers with a result list, Custom Search plays no part, even when
      that list leaves nothing. */
  lemma SerpListDecides(keys: Keys, maxResults: int, serp: Reply, cse: Reply, cse': Reply)
    requires Truthy(keys.serpApiKey) && serp.Answered? && serp.list.Some?
    ensures Search(keys, maxResults, serp, cse) == Search(keys, maxResults, serp, cse')
    ensures Search(keys, maxResults, serp, cse) == Shape(serp.list.value, maxResults)
  {
  }

  /** Without a SerpAPI list, a configured Custom Search that answers with a result
      list decides the result. */
  lemma CustomSearchFallback(keys: Keys, maxResults: int, serp: Reply, cse: Reply)
    requires !(Truthy(keys.serpApiKey) && serp.Answered? && serp.list.Some?)
    requires Truthy(keys.googleApiKey) && Truthy(keys.googleCx) && cse.Answered? && cse.list.Some?
    ensures Search(keys, maxResults, serp, cse) == Shape(cse.list.value, maxResults)
  {
  }

  /** Without both Custom Search keys and without a SerpAPI list, nothing is found. */
  lemma NoProviderNoResults(keys: Keys, maxResults: int, serp: Reply, cse: Reply)
    requires !(Truthy(keys.serpApiKey) && serp.Answered? && serp.list.Some?)
    requires !Truthy(keys.googleApiKey) || !Truthy(keys.googleCx)
    ensures Search(keys, maxResults, serp, cse) == []
  {
  }
}
