/** The citation-line pattern `Title:\s*(.+?)\s*\|\s*URL:\s*(.+?)(?:\s*\|\s*Text:\s*(.+))?$`
    as an explicit search. `IsMatch` states declaratively what a match of the
    pattern is; `MatchLine` searches for one in the order a backtracking engine
    tries them (leftmost start, greedy `\s*`, lazy `(.+?)`, the optional group
    tried before skipping it). */
module CitationPattern {
  import opened Wrappers
  import opened Strings

  /** Positions `lo` (inclusive) to `hi` (exclusive) of the line. */
  datatype Span = Span(lo: nat, hi: nat)

  /** The optional `| Text: ...` part: positions of the bar and of the keyword, and
      the captured value. */
  datatype TextPart = TextPart(bar: nat, key: nat, value: Span)

  /** One match: positions of `Title:`, the title capture, the bar, `URL:`, the URL
      capture and the optional text part. */
  datatype LineMatch = LineMatch(key: nat, title: Span, bar: nat, urlKey: nat, url: Span, text: Option<TextPart>)

  /** `\s*` can span positions `lo..hi`. */
  predicate SpaceBetween(line: string, lo: int, hi: int) {
    0 <= lo <= hi <= |line| && forall k {:trigger IsSpace(line[k])} :: lo <= k < hi ==> IsSpace(line[k])
  }

  /** `.` matches every character of `line[lo..hi]`. */
  predicate NoTerminator(line: string, lo: int, hi: int) {
    0 <= lo <= hi <= |line| && forall k {:trigger IsLineTerminator(line[k])} :: lo <= k < hi ==> !IsLineTerminator(line[k])
  }

  /** `(.+)` or `(.+?)` can capture `span`: at least one character, none a line terminator. */
  predicate Capture(line: string, span: Span) {
    span.lo < span.hi && NoTerminator(line, span.lo, span.hi)
  }

  /** `\s*\|\s*Text:\s*(.+)$` matches from position `from` to the end of the line. */
  predicate TextPartFits(line: string, from: int, t: TextPart) {
    && SpaceBetween(line, from, t.bar)
    && t.bar < |line| && line[t.bar] == '|'
    && SpaceBetween(line, t.bar + 1, t.key)
    && StartsAt(line, t.key, "Text:")
    && SpaceBetween(line, t.key + 5, t.value.lo)
    && Capture(line, t.value) && t.value.hi == |line|
  }

  /** The part of a match from `URL:` on. */
  predicate UrlPartFits(line: string, m: LineMatch) {
    && StartsAt(line, m.urlKey, "URL:")
    && SpaceBetween(line, m.urlKey + 4, m.url.lo)
    && Capture(line, m.url)
    && match m.text
       case None => m.url.hi == |line|
       case Some(t) => TextPartFits(line, m.url.hi, t)
  }

  /** `m` is a way for the whole pattern to match the line. */
  predicate IsMatch(line: string, m: LineMatch) {
    && StartsAt(line, m.key, "Title:")
    && SpaceBetween(line, m.key + 6, m.title.lo)
    && Capture(line, m.title)
    && SpaceBetween(line, m.title.hi, m.bar)
    && m.bar < |line| && line[m.bar] == '|'
    && SpaceBetween(line, m.bar + 1, m.urlKey)
    && UrlPartFits(line, m)
  }

  /** The end of the white-space run starting at `i` (greedy `\s*`). */
  function SkipSpace(line: string, i: nat): (j: nat)
    requires i <= |line|
    ensures i <= j <= |line|
    decreases |line| - i
  {
    if i < |line| && IsSpace(line[i]) then SkipSpace(line, i + 1) else i
  }

  /** The greedy run is white space and stops at the end or at a non-space character. */
  lemma {:induction false} SkipSpaceRun(line: string, i: nat)
    requires i <= |line|
    ensures SpaceBetween(line, i, SkipSpace(line, i))
    ensures SkipSpace(line, i) == |line| || !IsSpace(line[SkipSpace(line, i)])
    decreases |line| - i
  {
    if i < |line| && IsSpace(line[i]) {
      SkipSpaceRun(line, i + 1);
    }
  }

  /** No white-space run from `i` extends past the greedy one. */
  lemma {:induction false} SkipSpaceMaximal(line: string, i: nat, j: int)
    requires i <= |line| && SpaceBetween(line, i, j)
    ensures j <= SkipSpace(line, i)
    decreases |line| - i
  {
    if i < j {
      SkipSpaceMaximal(line, i + 1, j);
    }
  }

  /** A white-space run ending at a non-space character is the greedy one. */
  lemma SkipSpaceExact(line: string, i: nat, j: int)
    requires i <= |line| && SpaceBetween(line, i, j) && j < |line| && !IsSpace(line[j])
    ensures SkipSpace(line, i) == j
  {
    SkipSpaceMaximal(line, i, j);
    SkipSpaceRun(line, i);
  }

  // ---------------------------------------------------------------------------
  // The search, stage by stage. A greedy `\s*` starts from the end `j` of the
  // white-space run and gives characters back (`j - 1`, ...) when the rest fails.

  /** `\s*(.+)$` after `Text:` at `v`, the spaces ending at `j` or earlier. */
  function TextValue(line: string, v: nat, j: nat): Option<Span>
    decreases j
  {
    if j < |line| && NoTerminator(line, j, |line|) then Some(Span(j, |line|))
    else if j <= v then None
    else TextValue(line, v, j - 1)
  }

  /** The optional group `\s*\|\s*Text:\s*(.+)`, tried at position `e`. */
  function TextPartAt(line: string, e: nat): Option<TextPart>
    requires e <= |line|
  {
    var bar := SkipSpace(line, e);
    if bar < |line| && line[bar] == '|' then
      var key := SkipSpace(line, bar + 1);
      if StartsAt(line, key, "Text:") then
        match TextValue(line, key + 5, SkipSpace(line, key + 5))
        case None => None
        case Some(value) => Some(TextPart(bar, key, value))
      else None
    else None
  }

  /** The lazy URL capture `line[c..e]`, lengthened one character at a time. */
  function UrlCapture(line: string, key: nat, title: Span, bar: nat, urlKey: nat, c: nat, e: nat): Option<LineMatch>
    requires c < e <= |line|
    decreases |line| - e
  {
    if IsLineTerminator(line[e - 1]) then None
    else
      match TextPartAt(line, e)
      case Some(t) => Some(LineMatch(key, title, bar, urlKey, Span(c, e), Some(t)))
      case None =>
        if e == |line| then Some(LineMatch(key, title, bar, urlKey, Span(c, e), None))
        else UrlCapture(line, key, title, bar, urlKey, c, e + 1)
  }

  /** `\s*` after `URL:`, the URL capture starting at `c` or earlier. */
  function UrlSpaces(line: string, key: nat, title: Span, bar: nat, urlKey: nat, c: nat): Option<LineMatch>
    decreases c
  {
    var here := if c < |line| then UrlCapture(line, key, title, bar, urlKey, c, c + 1) else None;
    if here.Some? then here
    else if c <= urlKey + 4 then None
    else UrlSpaces(line, key, title, bar, urlKey, c - 1)
  }

  /** Everything after the title's bar: `\s*URL:` and the rest. */
  function AfterBar(line: string, key: nat, title: Span, bar: nat): Option<LineMatch>
    requires bar < |line|
  {
    var urlKey := SkipSpace(line, bar + 1);
    if StartsAt(line, urlKey, "URL:") then UrlSpaces(line, key, title, bar, urlKey, SkipSpace(line, urlKey + 4))
    else None
  }

  /** The lazy title capture `line[s..e]`, lengthened one character at a time. */
  function TitleCapture(line: string, key: nat, s: nat, e: nat): Option<LineMatch>
    requires s < e <= |line|
    decreases |line| - e
  {
    if IsLineTerminator(line[e - 1]) then None
    else
      var bar := SkipSpace(line, e);
      var here := if bar < |line| && line[bar] == '|' then AfterBar(line, key, Span(s, e), bar) else None;
      if here.Some? then here
      else if e == |line| then None
      else TitleCapture(line, key, s, e + 1)
  }

  /** `\s*` after `Title:`, the title capture starting at `s` or earlier. */
  function TitleSpaces(line: string, key: nat, s: nat): Option<LineMatch>
    decreases s
  {
    var here := if s < |line| then TitleCapture(line, key, s, s + 1) else None;
    if here.Some? then here
    else if s <= key + 6 then None
    else TitleSpaces(line, key, s - 1)
  }

  /** The unanchored search: start positions are tried from `p` on. */
  function MatchFrom(line: string, p: nat): Option<LineMatch>
    requires p <= |line|
    decreases |line| - p
  {
    var here := if StartsAt(line, p, "Title:") then TitleSpaces(line, p, SkipSpace(line, p + 6)) else None;
    if here.Some? then here
    else if p == |line| then None
    else MatchFrom(line, p + 1)
  }

  /** `line.match(pattern)`: the match a backtracking engine reports, if any. */
  function MatchLine(line: string): (r: Option<LineMatch>)
    ensures r.Some? ==> IsMatch(line, r.value)
  {
    MatchFromSound(line, 0);
    MatchFrom(line, 0)
  }

  // ---------------------------------------------------------------------------
  // Soundness: every match the search reports is a match of the pattern.

  lemma {:induction false} TextValueSound(line: string, v: nat, j: nat)
    requires SpaceBetween(line, v, j)
    ensures var r := TextValue(line, v, j);
            r.Some? ==> v <= r.value.lo <= j && SpaceBetween(line, v, r.value.lo)
                        && Capture(line, r.value) && r.value.hi == |line|
    decreases j
  {
    if !(j < |line| && NoTerminator(line, j, |line|)) && j > v {
      TextValueSound(line, v, j - 1);
    }
  }

  lemma TextPartAtSound(line: string, e: nat)
    requires e <= |line|
    ensures TextPartAt(line, e).Some? ==> TextPartFits(line, e, TextPartAt(line, e).value)
  {
    var bar := SkipSpace(line, e);
    SkipSpaceRun(line, e);
    if bar < |line| && line[bar] == '|' {
      var key := SkipSpace(line, bar + 1);
      SkipSpaceRun(line, bar + 1);
      if StartsAt(line, key, "Text:") {
        TextAfterKeySound(line, key);
      }
    }
  }

  /** The value found after `Text:` is preceded by white space only and runs to the
      end of the line. */
  lemma TextAfterKeySound(line: string, key: nat)
    requires StartsAt(line, key, "Text:")
    ensures var r := TextValue(line, key + 5, SkipSpace(line, key + 5));
            r.Some? ==> SpaceBetween(line, key + 5, r.value.lo) && Capture(line, r.value) && r.value.hi == |line|
  {
    SkipSpaceRun(line, key + 5);
    TextValueSound(line, key + 5, SkipSpace(line, key + 5));
  }

  lemma {:induction false} UrlCaptureSound(line: string, key: nat, title: Span, bar: nat, urlKey: nat, c: nat, e: nat)
    requires StartsAt(line, urlKey, "URL:") && SpaceBetween(line, urlKey + 4, c)
    requires c < e <= |line| && NoTerminator(line, c, e - 1)
    ensures var r := UrlCapture(line, key, title, bar, urlKey, c, e);
            r.Some? ==> r.value.key == key && r.value.title == title && r.value.bar == bar
                        && r.value.urlKey == urlKey && UrlPartFits(line, r.value)
    decreases |line| - e
  {
    if !IsLineTerminator(line[e - 1]) {
      TextPartAtSound(line, e);
      if TextPartAt(line, e).None? && e < |line| {
        UrlCaptureSound(line, key, title, bar, urlKey, c, e + 1);
      }
    }
  }

  lemma {:induction false} UrlSpacesSound(line: string, key: nat, title: Span, bar: nat, urlKey: nat, c: nat)
    requires StartsAt(line, urlKey, "URL:") && SpaceBetween(line, urlKey + 4, c)
    ensures var r := UrlSpaces(line, key, title, bar, urlKey, c);
            r.Some? ==> r.value.key == key && r.value.title == title && r.value.bar == bar
                        && r.value.urlKey == urlKey && UrlPartFits(line, r.value)
    decreases c
  {
    if c < |line| {
      UrlCaptureSound(line, key, title, bar, urlKey, c, c + 1);
    }
    if c > urlKey + 4 {
      UrlSpacesSound(line, key, title, bar, urlKey, c - 1);
    }
  }

  lemma AfterBarSound(line: string, key: nat, title: Span, bar: nat)
    requires bar < |line|
    ensures var r := AfterBar(line, key, title, bar);
            r.Some? ==> r.value.key == key && r.value.title == title && r.value.bar == bar
                        && SpaceBetween(line, bar + 1, r.value.urlKey) && UrlPartFits(line, r.value)
  {
    var urlKey := SkipSpace(line, bar + 1);
    SkipSpaceRun(line, bar + 1);
    if StartsAt(line, urlKey, "URL:") {
      SkipSpaceRun(line, urlKey + 4);
      UrlSpacesSound(line, key, title, bar, urlKey, SkipSpace(line, urlKey + 4));
    }
  }

  lemma {:induction false} TitleCaptureSound(line: string, key: nat, s: nat, e: nat)
    requires StartsAt(line, key, "Title:") && SpaceBetween(line, key + 6, s)
    requires s < e <= |line| && NoTerminator(line, s, e - 1)
    ensures var r := TitleCapture(line, key, s, e);
            r.Some? ==> r.value.key == key && IsMatch(line, r.value)
    decreases |line| - e
  {
    if !IsLineTerminator(line[e - 1]) {
      var bar := SkipSpace(line, e);
      SkipSpaceRun(line, e);
      if bar < |line| && line[bar] == '|' {
        AfterBarSound(line, key, Span(s, e), bar);
      }
      if e < |line| {
        TitleCaptureSound(line, key, s, e + 1);
      }
    }
  }

  lemma {:induction false} TitleSpacesSound(line: string, key: nat, s: nat)
    requires StartsAt(line, key, "Title:") && SpaceBetween(line, key + 6, s)
    ensures var r := TitleSpaces(line, key, s);
            r.Some? ==> r.value.key == key && IsMatch(line, r.value)
    decreases s
  {
    if s < |line| {
      TitleCaptureSound(line, key, s, s + 1);
    }
    if s > key + 6 {
      TitleSpacesSound(line, key, s - 1);
    }
  }

  lemma {:induction false} MatchFromSound(line: string, p: nat)
    requires p <= |line|
    ensures MatchFrom(line, p).Some? ==> p <= MatchFrom(line, p).value.key && IsMatch(line, MatchFrom(line, p).value)
    decreases |line| - p
  {
    if StartsAt(line, p, "Title:") {
      SkipSpaceRun(line, p + 6);
      TitleSpacesSound(line, p, SkipSpace(line, p + 6));
    }
    if p < |line| {
      MatchFromSound(line, p + 1);
    }
  }

  // ---------------------------------------------------------------------------
  // Completeness: whenever the pattern can match, the search finds a match, and
  // none that starts further left exists. Each stage is shown to reach a capture
  // known to succeed; the witness match supplies those captures.

  lemma {:induction false} TextValueReach(line: string, v: nat, j: nat, lo: nat)
    requires SpaceBetween(line, v, j) && v <= lo <= j && lo < |line| && NoTerminator(line, lo, |line|)
    ensures TextValue(line, v, j).Some?
    decreases j
  {
    if lo < j {
      TextValueReach(line, v, j - 1, lo);
    }
  }

  lemma TextPartAtComplete(line: string, e: nat, t: TextPart)
    requires e <= |line| && TextPartFits(line, e, t)
    ensures TextPartAt(line, e).Some?
  {
    SkipSpaceExact(line, e, t.bar);
    assert line[t.key] == "Text:"[0];
    SkipSpaceExact(line, t.bar + 1, t.key);
    var v := t.key + 5;
    SkipSpaceMaximal(line, v, t.value.lo);
    var j := SkipSpace(line, v);
    SkipSpaceRun(line, v);
    TextValueReach(line, v, j, t.value.lo);
    TextPartAtFound(line, e, t.bar, t.key);
  }

  /** With `|` and `Text:` where the greedy runs end, a value found is reported. */
  lemma TextPartAtFound(line: string, e: nat, bar: nat, key: nat)
    requires e <= |line| && SkipSpace(line, e) == bar && bar < |line| && line[bar] == '|'
    requires SkipSpace(line, bar + 1) == key && StartsAt(line, key, "Text:")
    requires TextValue(line, key + 5, SkipSpace(line, key + 5)).Some?
    ensures TextPartAt(line, e).Some?
  {
  }

  lemma {:induction false} UrlCaptureComplete(line: string, key: nat, title: Span, bar: nat, urlKey: nat,
                                              c: nat, e: nat, m: LineMatch)
    requires StartsAt(line, urlKey, "URL:") && SpaceBetween(line, urlKey + 4, c)
    requires c < e <= |line| && NoTerminator(line, c, e - 1)
    requires UrlPartFits(line, m) && m.urlKey == urlKey && m.url.lo == c && e <= m.url.hi
    ensures UrlCapture(line, key, title, bar, urlKey, c, e).Some?
    decreases |line| - e
  {
    if TextPartAt(line, e).None? && e < |line| {
      if m.url.hi == e {
        match m.text
        case Some(t) => TextPartAtComplete(line, e, t);
        case None =>
      }
      UrlCaptureComplete(line, key, title, bar, urlKey, c, e + 1, m);
    }
  }

  lemma {:induction false} UrlSpacesReach(line: string, key: nat, title: Span, bar: nat, urlKey: nat,
                                          c: nat, lo: nat)
    requires StartsAt(line, urlKey, "URL:") && SpaceBetween(line, urlKey + 4, c)
    requires urlKey + 4 <= lo <= c && lo < |line|
    requires UrlCapture(line, key, title, bar, urlKey, lo, lo + 1).Some?
    ensures UrlSpaces(line, key, title, bar, urlKey, c).Some?
    decreases c
  {
    if lo < c {
      UrlSpacesReach(line, key, title, bar, urlKey, c - 1, lo);
      UrlSpacesStep(line, key, title, bar, urlKey, c);
    }
  }

  /** A capture found from an earlier start is still found from a later one. */
  lemma UrlSpacesStep(line: string, key: nat, title: Span, bar: nat, urlKey: nat, c: nat)
    requires StartsAt(line, urlKey, "URL:") && SpaceBetween(line, urlKey + 4, c) && urlKey + 4 < c
    requires UrlSpaces(line, key, title, bar, urlKey, c - 1).Some?
    ensures UrlSpaces(line, key, title, bar, urlKey, c).Some?
  {
  }

  lemma AfterBarComplete(line: string, key: nat, title: Span, bar: nat, m: LineMatch)
    requires bar < |line| && SpaceBetween(line, bar + 1, m.urlKey) && UrlPartFits(line, m)
    ensures AfterBar(line, key, title, bar).Some?
  {
    UrlPartComplete(line, key, title, bar, m);
    AfterBarAt(line, key, title, bar, m.urlKey);
  }

  /** With `URL:` after the bar's white space and a URL part found from there, the
      part after the bar is found. */
  lemma AfterBarAt(line: string, key: nat, title: Span, bar: nat, urlKey: nat)
    requires bar < |line| && SpaceBetween(line, bar + 1, urlKey) && StartsAt(line, urlKey, "URL:")
    requires UrlSpaces(line, key, title, bar, urlKey, SkipSpace(line, urlKey + 4)).Some?
    ensures AfterBar(line, key, title, bar).Some?
  {
    assert line[urlKey] == "URL:"[0];
    SkipSpaceExact(line, bar + 1, urlKey);
    AfterBarFound(line, key, title, bar, urlKey);
  }

  /** From the witness's `URL:` on, the search finds a URL part. */
  lemma UrlPartComplete(line: string, key: nat, title: Span, bar: nat, m: LineMatch)
    requires UrlPartFits(line, m)
    ensures UrlSpaces(line, key, title, bar, m.urlKey, SkipSpace(line, m.urlKey + 4)).Some?
  {
    UrlCaptureAtWitness(line, key, title, bar, m);
    UrlSpacesFromCapture(line, key, title, bar, m.urlKey, m.url.lo);
  }

  /** The shortest URL capture from the witness's start leads to a match. */
  lemma UrlCaptureAtWitness(line: string, key: nat, title: Span, bar: nat, m: LineMatch)
    requires UrlPartFits(line, m)
    ensures m.url.lo < |line| && UrlCapture(line, key, title, bar, m.urlKey, m.url.lo, m.url.lo + 1).Some?
  {
    UrlCaptureComplete(line, key, title, bar, m.urlKey, m.url.lo, m.url.lo + 1, m);
  }

  /** A URL capture starting at `lo` that leads to a match is reached from the
      greedy white-space run. */
  lemma UrlSpacesFromCapture(line: string, key: nat, title: Span, bar: nat, urlKey: nat, lo: nat)
    requires StartsAt(line, urlKey, "URL:") && SpaceBetween(line, urlKey + 4, lo) && lo < |line|
    requires UrlCapture(line, key, title, bar, urlKey, lo, lo + 1).Some?
    ensures UrlSpaces(line, key, title, bar, urlKey, SkipSpace(line, urlKey + 4)).Some?
  {
    SkipSpaceMaximal(line, urlKey + 4, lo);
    SkipSpaceRun(line, urlKey + 4);
    UrlSpacesReach(line, key, title, bar, urlKey, SkipSpace(line, urlKey + 4), lo);
  }

  /** With `URL:` where the bar's white space ends, a URL part found there is reported. */
  lemma AfterBarFound(line: string, key: nat, title: Span, bar: nat, urlKey: nat)
    requires bar < |line| && SkipSpace(line, bar + 1) == urlKey && StartsAt(line, urlKey, "URL:")
    requires UrlSpaces(line, key, title, bar, urlKey, SkipSpace(line, urlKey + 4)).Some?
    ensures AfterBar(line, key, title, bar).Some?
  {
  }

  /** A capture `line[s..hi]` that leads to a match is reached by lengthening any
      shorter one. */
  lemma {:induction false} TitleCaptureReach(line: string, key: nat, s: nat, e: nat, hi: nat)
    requires StartsAt(line, key, "Title:") && SpaceBetween(line, key + 6, s)
    requires s < e <= hi <= |line| && NoTerminator(line, s, hi)
    requires TitleCapture(line, key, s, hi).Some?
    ensures TitleCapture(line, key, s, e).Some?
    decreases hi - e
  {
    if e < hi {
      TitleCaptureReach(line, key, s, e + 1, hi);
      TitleCaptureStep(line, key, s, e);
    }
  }

  /** A match found with a longer title capture is still found from a shorter one. */
  lemma TitleCaptureStep(line: string, key: nat, s: nat, e: nat)
    requires StartsAt(line, key, "Title:") && SpaceBetween(line, key + 6, s)
    requires s < e < |line| && NoTerminator(line, s, e)
    requires TitleCapture(line, key, s, e + 1).Some?
    ensures TitleCapture(line, key, s, e).Some?
  {
  }

  /** The capture that ends where the witness's title ends leads to a match. */
  lemma TitleCaptureAtBar(line: string, m: LineMatch)
    requires IsMatch(line, m)
    ensures TitleCapture(line, m.key, m.title.lo, m.title.hi).Some?
  {
    SkipSpaceExact(line, m.title.hi, m.bar);
    AfterBarComplete(line, m.key, m.title, m.bar, m);
    TitleCaptureFound(line, m.key, m.title.lo, m.title.hi);
  }

  /** A match found right after the capture `line[s..e]` is reported. */
  lemma TitleCaptureFound(line: string, key: nat, s: nat, e: nat)
    requires StartsAt(line, key, "Title:") && SpaceBetween(line, key + 6, s)
    requires s < e <= |line| && NoTerminator(line, s, e)
    requires SkipSpace(line, e) < |line| && line[SkipSpace(line, e)] == '|'
    requires AfterBar(line, key, Span(s, e), SkipSpace(line, e)).Some?
    ensures TitleCapture(line, key, s, e).Some?
  {
  }

  lemma {:induction false} TitleSpacesReach(line: string, key: nat, s: nat, lo: nat)
    requires StartsAt(line, key, "Title:") && SpaceBetween(line, key + 6, s)
    requires key + 6 <= lo <= s && lo < |line|
    requires TitleCapture(line, key, lo, lo + 1).Some?
    ensures TitleSpaces(line, key, s).Some?
    decreases s
  {
    if lo < s {
      TitleSpacesReach(line, key, s - 1, lo);
      TitleSpacesStep(line, key, s);
    }
  }

  /** A capture found from an earlier start is still found from a later one. */
  lemma TitleSpacesStep(line: string, key: nat, s: nat)
    requires StartsAt(line, key, "Title:") && SpaceBetween(line, key + 6, s) && key + 6 < s
    requires TitleSpaces(line, key, s - 1).Some?
    ensures TitleSpaces(line, key, s).Some?
  {
  }

  /** From the witness's `Title:` on, the search finds a match. */
  lemma MatchAtWitness(line: string, m: LineMatch)
    requires IsMatch(line, m)
    ensures TitleSpaces(line, m.key, SkipSpace(line, m.key + 6)).Some?
  {
    TitleCaptureAtBar(line, m);
    TitleSpacesFromCapture(line, m.key, m.title.lo, m.title.hi);
  }

  /** A title capture that leads to a match is reached from the greedy white-space run. */
  lemma TitleSpacesFromCapture(line: string, key: nat, lo: nat, hi: nat)
    requires StartsAt(line, key, "Title:") && SpaceBetween(line, key + 6, lo)
    requires lo < hi <= |line| && NoTerminator(line, lo, hi)
    requires TitleCapture(line, key, lo, hi).Some?
    ensures TitleSpaces(line, key, SkipSpace(line, key + 6)).Some?
  {
    TitleCaptureReach(line, key, lo, lo + 1, hi);
    SkipSpaceMaximal(line, key + 6, lo);
    SkipSpaceRun(line, key + 6);
    TitleSpacesReach(line, key, SkipSpace(line, key + 6), lo);
  }

  lemma {:induction false} MatchFromComplete(line: string, p: nat, m: LineMatch)
    requires p <= m.key && IsMatch(line, m)
    ensures MatchFrom(line, p).Some? && MatchFrom(line, p).value.key <= m.key
    decreases m.key - p
  {
    if p == m.key {
      MatchAtWitness(line, m);
      MatchFromFound(line, p);
    } else {
      MatchFromComplete(line, p + 1, m);
      MatchFromStep(line, p);
    }
  }

  /** A match found from `Title:` at `p` is the one reported from `p`. */
  lemma MatchFromFound(line: string, p: nat)
    requires StartsAt(line, p, "Title:") && TitleSpaces(line, p, SkipSpace(line, p + 6)).Some?
    ensures MatchFrom(line, p).Some? && MatchFrom(line, p).value.key == p
  {
    SkipSpaceRun(line, p + 6);
    TitleSpacesSound(line, p, SkipSpace(line, p + 6));
  }

  /** Starting one position earlier finds a match at least as far left. */
  lemma MatchFromStep(line: string, p: nat)
    requires p < |line| && MatchFrom(line, p + 1).Some?
    ensures MatchFrom(line, p).Some? && MatchFrom(line, p).value.key <= MatchFrom(line, p + 1).value.key
  {
    MatchFromSound(line, p + 1);
    if StartsAt(line, p, "Title:") {
      SkipSpaceRun(line, p + 6);
      TitleSpacesSound(line, p, SkipSpace(line, p + 6));
    }
  }

  /** The search finds a match exactly when the pattern can match the line, and the
      match it reports starts at the leftmost `Title:` from which one exists. */
  lemma MatchLineExact(line: string, m: LineMatch)
    ensures MatchLine(line).Some? ==> IsMatch(line, MatchLine(line).value)
    ensures IsMatch(line, m) ==> MatchLine(line).Some? && MatchLine(line).value.key <= m.key
  {
    if IsMatch(line, m) {
      MatchFromComplete(line, 0, m);
    }
  }

  // ---------------------------------------------------------------------------
  // The documented line: which captures the search reports for it.

  /** A title or URL the documented line can carry: non-empty, no white space at
      either end, no `|` and no line terminator. */
  predicate PlainField(s: string) {
    && s != [] && !IsSpace(s[0]) && !IsSpace(s[|s| - 1])
    && forall i :: 0 <= i < |s| ==> s[i] != '|' && !IsLineTerminator(s[i])
  }

  /** A text the documented line can carry: non-empty, no white space at either
      end, no line terminator (a `|` is allowed, since `(.+)` runs to the end). */
  predicate TextField(s: string) {
    && s != [] && !IsSpace(s[0]) && !IsSpace(s[|s| - 1])
    && forall i :: 0 <= i < |s| ==> !IsLineTerminator(s[i])
  }

  /** The line the system prompt asks for: `- Title: t | URL: u`, followed by
      ` | Text: x` when there is a text. */
  function CitationLayout(t: string, u: string, x: Option<string>): string {
    "- Title: " + t + " | URL: " + u + LayoutTail(x)
  }

  /** What follows the URL in the documented line. */
  function LayoutTail(x: Option<string>): string {
    match x
    case None => ""
    case Some(v) => " | Text: " + v
  }

  /** The documented line, cut at the positions the captures are expected at. */
  predicate Laid(line: string, t: string, u: string, x: Option<string>) {
    && |line| == 17 + |t| + |u| + |LayoutTail(x)|
    && line[..9] == "- Title: "
    && line[9..9 + |t|] == t
    && line[9 + |t|..17 + |t|] == " | URL: "
    && line[17 + |t|..17 + |t| + |u|] == u
    && line[17 + |t| + |u|..] == LayoutTail(x)
  }

  /** The match the search is expected to report for the documented line. */
  function LayoutMatch(line: string, t: string, u: string, x: Option<string>): LineMatch {
    var a := 17 + |t| + |u|;
    LineMatch(2, Span(9, 9 + |t|), 10 + |t|, 12 + |t|, Span(17 + |t|, a), TailMatch(line, a, x))
  }

  /** The text part expected after a URL ending at `a`. */
  function TailMatch(line: string, a: nat, x: Option<string>): Option<TextPart> {
    if x.Some? then Some(TextPart(a + 1, a + 3, Span(a + 9, |line|))) else None
  }

  lemma LayoutIsLaid(t: string, u: string, x: Option<string>)
    ensures Laid(CitationLayout(t, u, x), t, u, x)
  {
    var line := CitationLayout(t, u, x);
    assert line == "- Title: " + t + " | URL: " + u + LayoutTail(x);
  }

  /** For the documented line the search reports the shortest title (up to the first
      bar), the shortest URL that lets the rest match (up to the ` | Text:` part),
      and takes the optional text group whenever it is present: the captures are
      exactly the fields the line was written from. */
  lemma MatchLayout(t: string, u: string, x: Option<string>)
    requires PlainField(t) && PlainField(u) && (x.Some? ==> TextField(x.value))
    ensures var line := CitationLayout(t, u, x);
            var m := LayoutMatch(line, t, u, x);
            && MatchLine(line) == Some(m)
            && line[m.title.lo..m.title.hi] == t
            && line[m.url.lo..m.url.hi] == u
            && (m.text.Some? <==> x.Some?)
            && (x.Some? ==> line[m.text.value.value.lo..m.text.value.value.hi] == x.value)
  {
    var line := CitationLayout(t, u, x);
    LayoutIsLaid(t, u, x);
    MatchLaid(line, t, u, x);
    CapturesLaid(line, t, u, x);
  }

  /** The search on a line laid out as documented. */
  lemma MatchLaid(line: string, t: string, u: string, x: Option<string>)
    requires Laid(line, t, u, x) && PlainField(t) && PlainField(u) && (x.Some? ==> TextField(x.value))
    ensures MatchLine(line) == Some(LayoutMatch(line, t, u, x))
  {
    var a := 17 + |t| + |u|;
    FieldAt(line, 9, t);
    FieldAt(line, 17 + |t|, u);
    TitleStage(line, 2, 9, 9 + |t|, a, x);
    assert TitleSpaces(line, 2, 9) == Some(LayoutMatch(line, t, u, x));
    MatchAfterLead(line, LayoutMatch(line, t, u, x));
  }

  /** After the lead `- Title: `, the match found from the title is the one reported. */
  lemma MatchAfterLead(line: string, m: LineMatch)
    requires 9 < |line| && line[..9] == "- Title: " && !IsSpace(line[9])
    requires TitleSpaces(line, 2, 9) == Some(m)
    ensures MatchLine(line) == Some(m)
  {
    LeadChars(line);
    SkipSpaceExact(line, 8, 9);
    assert MatchFrom(line, 2) == TitleSpaces(line, 2, 9);
    assert MatchFrom(line, 0) == MatchFrom(line, 1) == MatchFrom(line, 2);
  }

  /** The lead `- Title: ` of the documented line. */
  lemma LeadChars(line: string)
    requires 9 <= |line| && line[..9] == "- Title: "
    ensures !StartsAt(line, 0, "Title:") && !StartsAt(line, 1, "Title:") && StartsAt(line, 2, "Title:")
    ensures line[8] == ' '
  {
    var lead := line[..9];
    assert line[0] == lead[0] && line[1] == lead[1] && line[8] == lead[8];
    assert line[2..8] == "Title:" by {
      forall i | 0 <= i < 6 ensures line[2 + i] == "Title:"[i] {
        assert line[2 + i] == lead[2 + i];
      }
    }
  }

  /** The expected match of a laid-out line captures its fields. */
  lemma CapturesLaid(line: string, t: string, u: string, x: Option<string>)
    requires Laid(line, t, u, x)
    ensures var m := LayoutMatch(line, t, u, x);
            && line[m.title.lo..m.title.hi] == t
            && line[m.url.lo..m.url.hi] == u
            && (m.text.Some? <==> x.Some?)
            && (x.Some? ==> line[m.text.value.value.lo..m.text.value.value.hi] == x.value)
  {
    if x.Some? {
      var a := 17 + |t| + |u|;
      assert line[a + 9..|line|] == line[a..][9..] == x.value;
    }
  }

  /** The lazy title capture grows until the first bar, and the rest of the line then
      matches from there. */
  lemma TitleStage(line: string, key: nat, s: nat, e: nat, a: nat, x: Option<string>)
    requires 0 < s < e && e + 8 < a <= |line| && !IsSpace(line[e - 1])
    requires NoTerminator(line, s, e) && forall k :: s <= k < e ==> line[k] != '|'
    requires line[e..e + 8] == " | URL: " && !IsSpace(line[e + 8]) && !IsSpace(line[a - 1])
    requires NoTerminator(line, e + 8, a) && forall k :: e + 8 <= k < a ==> line[k] != '|'
    requires line[a..] == LayoutTail(x) && (x.Some? ==> TextField(x.value))
    ensures TitleCapture(line, key, s, s + 1)
         == Some(LineMatch(key, Span(s, e), e + 1, e + 3, Span(e + 8, a), TailMatch(line, a, x)))
  {
    TitleCaptureSkips(line, key, s, s + 1, e);
    BarStage(line, key, Span(s, e), e, a, x);
    TitleCaptureEnds(line, key, s, e, LineMatch(key, Span(s, e), e + 1, e + 3, Span(e + 8, a), TailMatch(line, a, x)));
  }

  /** After the title, ` | URL: ` and the URL part match. */
  lemma BarStage(line: string, key: nat, title: Span, e: nat, a: nat, x: Option<string>)
    requires e + 8 < a <= |line|
    requires line[e..e + 8] == " | URL: " && !IsSpace(line[e + 8]) && !IsSpace(line[a - 1])
    requires NoTerminator(line, e + 8, a) && forall k :: e + 8 <= k < a ==> line[k] != '|'
    requires line[a..] == LayoutTail(x) && (x.Some? ==> TextField(x.value))
    ensures SkipSpace(line, e) == e + 1 && line[e + 1] == '|'
    ensures AfterBar(line, key, title, e + 1)
         == Some(LineMatch(key, title, e + 1, e + 3, Span(e + 8, a), TailMatch(line, a, x)))
  {
    GapChars(line, e);
    SkipSpaceExact(line, e, e + 1);
    SkipSpaceExact(line, e + 2, e + 3);
    UrlStage(line, key, title, e + 1, e + 3, e + 8, a, x);
  }

  /** The title capture that ends before the bar leads to the match found after it. */
  lemma TitleCaptureEnds(line: string, key: nat, s: nat, e: nat, m: LineMatch)
    requires s < e <= |line| && !IsLineTerminator(line[e - 1])
    requires SkipSpace(line, e) < |line| && line[SkipSpace(line, e)] == '|'
    requires AfterBar(line, key, Span(s, e), SkipSpace(line, e)) == Some(m)
    ensures TitleCapture(line, key, s, e) == Some(m)
  {
  }

  /** The lazy URL capture grows until the text part fits, or to the end of the line. */
  lemma UrlStage(line: string, key: nat, title: Span, bar: nat, urlKey: nat, c: nat, a: nat, x: Option<string>)
    requires 0 < c < a <= |line| && line[c - 1] == ' ' && !IsSpace(line[c]) && !IsSpace(line[a - 1])
    requires NoTerminator(line, c, a) && forall k :: c <= k < a ==> line[k] != '|'
    requires line[a..] == LayoutTail(x) && (x.Some? ==> TextField(x.value))
    ensures SkipSpace(line, c - 1) == c
    ensures UrlSpaces(line, key, title, bar, urlKey, c) == Some(LineMatch(key, title, bar, urlKey, Span(c, a), TailMatch(line, a, x)))
  {
    SkipSpaceExact(line, c - 1, c);
    UrlCaptureSkips(line, key, title, bar, urlKey, c, c + 1, a);
    var part := TailPart(line, a, x);
    UrlCaptureEnds(line, key, title, bar, urlKey, c, a, part);
  }

  /** The gap ` | URL: ` between the title and the URL. */
  lemma GapChars(line: string, o: nat)
    requires o + 8 <= |line| && line[o..o + 8] == " | URL: "
    ensures line[o] == ' ' && line[o + 1] == '|' && line[o + 2] == ' ' && line[o + 7] == ' '
    ensures StartsAt(line, o + 3, "URL:")
  {
    var gap := line[o..o + 8];
    assert line[o] == gap[0] && line[o + 1] == gap[1] && line[o + 2] == gap[2] && line[o + 7] == gap[7];
    assert line[o + 3..o + 7] == "URL:" by {
      forall i | 0 <= i < 4 ensures line[o + 3 + i] == "URL:"[i] {
        assert line[o + 3 + i] == gap[3 + i];
      }
    }
  }

  /** The URL capture that ends where the optional group is decided. */
  lemma UrlCaptureEnds(line: string, key: nat, title: Span, bar: nat, urlKey: nat, c: nat, e: nat,
                       part: Option<TextPart>)
    requires c < e <= |line| && !IsLineTerminator(line[e - 1])
    requires TextPartAt(line, e) == part && (part.None? ==> e == |line|)
    ensures UrlCapture(line, key, title, bar, urlKey, c, e) == Some(LineMatch(key, title, bar, urlKey, Span(c, e), part))
  {
  }

  /** What the optional group gives at the end of the URL in the documented line. */
  lemma TailPart(line: string, a: nat, x: Option<string>) returns (part: Option<TextPart>)
    requires a <= |line| && line[a..] == LayoutTail(x)
    requires x.Some? ==> TextField(x.value)
    ensures part == TailMatch(line, a, x)
    ensures TextPartAt(line, a) == part
    ensures part.None? ==> a == |line|
  {
    if x.Some? {
      var v := x.value;
      var tail := line[a..];
      assert tail == " | Text: " + v;
      assert line[a] == tail[0] == ' ' && line[a + 1] == tail[1] == '|' && line[a + 2] == tail[2] == ' ';
      assert line[a + 3] == tail[3] == 'T' && line[a + 8] == tail[8] == ' ' && line[a + 9] == tail[9] == v[0];
      assert line[a + 3..a + 8] == tail[3..8] == "Text:";
      SkipSpaceExact(line, a, a + 1);
      SkipSpaceExact(line, a + 2, a + 3);
      SkipSpaceExact(line, a + 8, a + 9);
      forall k | a + 9 <= k < |line| ensures !IsLineTerminator(line[k]) {
        assert line[k] == tail[k - a] == v[k - a - 9];
      }
      part := Some(TextPart(a + 1, a + 3, Span(a + 9, |line|)));
    } else {
      part := None;
    }
  }

  /** The characters of a field placed at `lo`. */
  lemma FieldAt(line: string, lo: nat, f: string)
    requires lo + |f| <= |line| && line[lo..lo + |f|] == f && PlainField(f)
    ensures NoTerminator(line, lo, lo + |f|) && !IsSpace(line[lo]) && !IsSpace(line[lo + |f| - 1])
    ensures forall k :: lo <= k < lo + |f| ==> line[k] != '|'
  {
    forall k | lo <= k < lo + |f| ensures line[k] == f[k - lo] {
      assert line[lo..lo + |f|][k - lo] == line[k];
    }
  }

  /** White space starting inside a stretch that has no `|` and ends in a non-space
      character stops at a character of that stretch, which is not `|`. */
  lemma SkipSpaceInside(line: string, e: nat, hi: nat)
    requires e < hi <= |line| && !IsSpace(line[hi - 1])
    requires forall k :: e <= k < hi ==> line[k] != '|'
    ensures SkipSpace(line, e) < hi && line[SkipSpace(line, e)] != '|'
  {
    SkipSpaceRun(line, e);
  }

  /** Without a bar after the white space at `e`, the title capture grows past `e`. */
  lemma TitleCaptureNoBar(line: string, key: nat, s: nat, e: nat)
    requires s < e < |line| && !IsLineTerminator(line[e - 1])
    requires SkipSpace(line, e) < |line| && line[SkipSpace(line, e)] != '|'
    ensures TitleCapture(line, key, s, e) == TitleCapture(line, key, s, e + 1)
  {
  }

  /** Without a bar after the white space at `e`, the optional group does not match there. */
  lemma NoBarNoText(line: string, e: nat)
    requires e <= |line| && SkipSpace(line, e) < |line| && line[SkipSpace(line, e)] != '|'
    ensures TextPartAt(line, e).None?
  {
  }

  /** The lazy title capture lengthens past a stretch with no bar after it. */
  lemma {:induction false} TitleCaptureSkips(line: string, key: nat, s: nat, e: nat, hi: nat)
    requires s < e <= hi <= |line| && NoTerminator(line, s, hi) && !IsSpace(line[hi - 1])
    requires forall k :: e <= k < hi ==> line[k] != '|'
    ensures TitleCapture(line, key, s, e) == TitleCapture(line, key, s, hi)
    decreases hi - e
  {
    if e < hi {
      assert !IsLineTerminator(line[e - 1]);
      SkipSpaceInside(line, e, hi);
      TitleCaptureNoBar(line, key, s, e);
      TitleCaptureSkips(line, key, s, e + 1, hi);
    }
  }

  /** The lazy URL capture lengthens past a stretch with no bar after it. */
  lemma {:induction false} UrlCaptureSkips(line: string, key: nat, title: Span, bar: nat, urlKey: nat,
                                           c: nat, e: nat, hi: nat)
    requires c < e <= hi <= |line| && NoTerminator(line, c, hi) && !IsSpace(line[hi - 1])
    requires forall k :: e <= k < hi ==> line[k] != '|'
    ensures UrlCapture(line, key, title, bar, urlKey, c, e) == UrlCapture(line, key, title, bar, urlKey, c, hi)
    decreases hi - e
  {
    if e < hi {
      SkipSpaceInside(line, e, hi);
      NoBarNoText(line, e);
      UrlCaptureSkips(line, key, title, bar, urlKey, c, e + 1, hi);
    }
  }
}
