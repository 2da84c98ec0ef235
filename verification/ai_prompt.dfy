/** The request sent to the language model (app/lib/ai.ts): a system prompt that
    fixes the reply format, and a prompt carrying the article and, when there are
    any, numbered excerpts of the reference articles. */
module AiPrompt {
  import opened Strings
  import opened Seqs
  import opened ReferenceScraper

  /** The opening of every system prompt. */
  const SystemIntro :=
    "You "
    + "are an expert content strategist. "
    + "Your task is to update blog "
    + "articles to make them more "
    + "engaging, SEO-friendly, and "
    + "modern while maintaining their "
    + "core message."

  /** Added to the system prompt when there are reference articles. */
  const ReferenceBrief :=
    "\n\nYou "
    + "have been provided with reference "
    + "articles that are ranking well on "
    + "Google. Study their formatting, "
    + "structure, writing style, and "
    + "content approach. Your task is to "
    + "update the original article to "
    + "match the quality, formatting, "
    + "and style of these reference "
    + "articles while keeping the core "
    + "message of the original article."

  /** The reply format, which closes every system prompt. */
  const ReplyFormat :=
    "\n\nIMPORTANT: "
    + "Return your response in the "
    + "following exact format:\n"
    + "\n"
    + "### Updated Content\n"
    + "[Your improved article content here]\n"
    + "\n"
    + "### Citations\n"
    + "- Title: [Citation Title] | "
    + "URL: https://example.com | "
    + "Text: Brief relevant quote or fact\n"
    + "- Title: [Citation Title] | "
    + "URL: https://example.com | "
    + "Text: Brief relevant quote or fact\n"
    + "\n"
    + "### Changes Summary\n"
    + "[Brief summary of what was changed]"

  const ReferencesIntro :=
    "\n\nReference Articles "
    + "(study their formatting and style):\n\n"

  /** Closes a prompt that lists reference articles. */
  const Instructions :=
    "\n\nPlease update the original "
    + "article to match the formatting, "
    + "structure, and writing style of "
    + "the reference articles. "
    + "Make sure to:\n"
    + "1. Use similar heading "
    + "structures and formatting\n"
    + "2. Match the writing tone "
    + "and style\n"
    + "3. Include similar content "
    + "depth and detail\n"
    + "4. Maintain the core message "
    + "of the original article\n"
    + "5. Add citations at the bottom "
    + "referencing the reference articles\n"

  /** Closes a prompt without reference articles. */
  const GenericRequest :=
    "\n\nPlease "
    + "provide an updated version of "
    + "this article with proper "
    + "citations and change summary."

  /** How much of a reference article's content goes into the prompt. */
  const ExcerptLength := 3000

  /** The two texts of one request. */
  datatype Request = Request(system: string, prompt: string)

  function SystemPrompt(hasReferences: bool): string {
    SystemIntro + (if hasReferences then ReferenceBrief else "") + ReplyFormat
  }

  /** The article itself, which every prompt starts with. */
  function Header(title: string, content: string): string {
    "Title: " + title + "\n\nOriginal Content:\n" + content + "\n\n"
  }

  /** `ref.content.substring(0, 3000)`. */
  function Excerpt(ref: ReferenceArticle): (r: string)
    ensures |r| <= ExcerptLength && |r| <= |ref.content| && r == ref.content[..|r|]
    ensures |ref.content| <= ExcerptLength ==> r == ref.content
  {
    Take(ref.content, ExcerptLength)
  }

  /** The block for the reference article numbered `n`. */
  function Block(ref: ReferenceArticle, n: nat): string {
    "\n--- Reference Article " + NatToString(n) + " ---\n"
    + "Title: " + ref.title + "\n"
    + "URL: " + ref.url + "\n"
    + "Content:\n" + Excerpt(ref) + "\n"
  }

  /** The blocks of `refs`, numbered from `first` on. */
  function Blocks(refs: seq<ReferenceArticle>, first: nat): string {
    ConcatNumbered(refs, first, Block)
  }

  function Prompt(title: string, content: string, refs: seq<ReferenceArticle>): string {
    Header(title, content)
    + (if |refs| > 0 then ReferencesIntro + Blocks(refs, 1) + Instructions else GenericRequest)
  }

  /** `transformArticle(content, title, referenceArticles)` up to the model call. */
  function BuildRequest(content: string, title: string, refs: seq<ReferenceArticle>): (r: Request)
    ensures StartsAt(r.system, |SystemIntro|, ReferenceBrief) <==> |refs| > 0
    ensures StartsWith(r.prompt, Header(title, content))
    ensures StartsAt(r.prompt, |Header(title, content)|, ReferencesIntro) <==> |refs| > 0
  {
    if refs == [] then
      SystemPromptWithoutBrief();
      PromptWithoutReferences(title, content);
      Request(SystemPrompt(false), Prompt(title, content, []))
    else
      SystemPromptWithBrief();
      PromptWithReferences(title, content, refs);
      Request(SystemPrompt(true), Prompt(title, content, refs))
  }

  /** With reference articles, the system prompt describes them right after its
      opening, and ends with the reply format the reply parser reads. */
  lemma SystemPromptWithBrief()
    ensures var s := SystemPrompt(true);
            && StartsWith(s, SystemIntro)
            && StartsAt(s, |SystemIntro|, ReferenceBrief)
            && s[|s| - |ReplyFormat|..] == ReplyFormat
  {
    PartAt(SystemIntro, ReferenceBrief, ReplyFormat);
  }

  /** Without reference articles, the reply format follows the opening directly. */
  lemma SystemPromptWithoutBrief()
    ensures var s := SystemPrompt(false);
            && StartsWith(s, SystemIntro)
            && s[|SystemIntro|..] == ReplyFormat
            && !StartsAt(s, |SystemIntro|, ReferenceBrief)
  {
    Without(SystemIntro, ReferenceBrief, ReplyFormat);
  }

  /** Where the middle and last parts of a concatenation sit. */
  lemma PartAt(a: string, b: string, c: string)
    ensures StartsWith(a + b + c, a)
    ensures StartsAt(a + b + c, |a|, b)
    ensures (a + b + c)[|a + b + c| - |c|..] == c
  {
    var s := a + b + c;
    assert s[..|a|] == a;
    assert s[|a|..|a| + |b|] == b;
    assert s[|s| - |c|..] == c;
  }

  /** Without reference articles, the article is followed by the plain request to
      update it, and no list of references. */
  lemma PromptWithoutReferences(title: string, content: string)
    ensures var p := Prompt(title, content, []);
            var h := |Header(title, content)|;
            && StartsWith(p, Header(title, content))
            && p[h..] == GenericRequest
            && !StartsAt(p, h, ReferencesIntro)
  {
    Without(Header(title, content), ReferencesIntro, GenericRequest);
  }

  /** With reference articles, the article is followed by the heading of the list,
      then the numbered blocks of the references, and the prompt ends with the
      formatting instructions. */
  lemma PromptWithReferences(title: string, content: string, refs: seq<ReferenceArticle>)
    requires |refs| > 0
    ensures Framed(Prompt(title, content, refs), Header(title, content), ReferencesIntro, Blocks(refs, 1), Instructions)
  {
    var p := Prompt(title, content, refs);
    var b := Blocks(refs, 1);
    assert p == Header(title, content) + (ReferencesIntro + b + Instructions);
    Around(Header(title, content), ReferencesIntro, b, Instructions);
  }

  /** `h + c` starts with `h`, followed by `c` and not by `b`, when `b` and `c`
      differ at their third character. */
  lemma Without(h: string, b: string, c: string)
    requires |b| > 2 && |c| > 2 && b[2] != c[2]
    ensures var p := h + c;
            && StartsWith(p, h)
            && p[|h|..] == c
            && !StartsAt(p, |h|, b)
  {
    var p := h + c;
    assert p[..|h|] == h;
    assert p[|h|..] == c;
  }

  /** `p` starts with `h`, followed by `a`, then `b`, and ends with `c`. */
  predicate Framed(p: string, h: string, a: string, b: string, c: string) {
    && StartsWith(p, h)
    && StartsAt(p, |h|, a)
    && |h| + |a| <= |p| - |c|
    && p[|h| + |a|..|p| - |c|] == b
    && p[|p| - |c|..] == c
  }

  /** Where the parts of `h + (a + b + c)` sit. */
  lemma Around(h: string, a: string, b: string, c: string)
    ensures Framed(h + (a + b + c), h, a, b, c)
  {
    var p := h + (a + b + c);
    assert p[..|h|] == h;
    assert p[|h|..|h| + |a|] == a;
    assert p[|h| + |a|..|p| - |c|] == b;
    assert p[|p| - |c|..] == c;
  }

  /** The blocks appear in the order of the articles, the one at index `i` numbered
      `first + i`. */
  lemma BlocksInOrder(refs: seq<ReferenceArticle>, first: nat, i: nat)
    requires i < |refs|
    ensures Blocks(refs, first) == Blocks(refs[..i], first) + Block(refs[i], first + i) + Blocks(refs[i + 1..], first + i + 1)
  {
    ConcatNumberedAt(refs, first, Block, i);
  }
}
