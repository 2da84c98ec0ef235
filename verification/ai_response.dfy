/** Reading the model's reply (app/lib/ai.ts): the reply is cut at every `###`,
    each piece is trimmed, and pieces headed "Updated Content", "Citations" or
    "Changes Summary" fill the corresponding field of the result. */
module AiResponse {
  import opened Wrappers
  import opened Strings
  import opened Seqs
  import opened CitationPattern

  /** A source the rewritten article cites. */
  datatype Citation = Citation(url: string, title: string, text: Option<string>)

  /** What a transformation returns. */
  datatype TransformResult = TransformResult(updatedContent: string, citations: seq<Citation>,
                                             wordCountChange: int, sentimentShift: string)

  const SectionMarker := "###"
  const UpdatedHeading := "Updated Content"
  const CitationsHeading := "Citations"
  const SummaryHeading := "Changes Summary"
  const LineBreak := "\n"
  const ListMarker := "-"

  /** The summary reported when the reply has none. */
  const DefaultSummary := "Content enhanced"

  /** The title given to a citation whose captured title is blank. */
  const UnknownTitle := "Unknown"

  // ---------------------------------------------------------------------------
  // One citation line

  /** The citation built from a match: each capture trimmed, a blank title
      replaced by `UnknownTitle`, the text present exactly when its group took part. */
  function ToCitation(line: string, m: LineMatch): (c: Citation)
    requires IsMatch(line, m)
    ensures c.title != "" && IsTrimmed(c.url)
    ensures Trim(line[m.title.lo..m.title.hi]) != "" ==> c.title == Trim(line[m.title.lo..m.title.hi])
    ensures AllSpace(line[m.title.lo..m.title.hi]) ==> c.title == UnknownTitle
    ensures c.url == Trim(line[m.url.lo..m.url.hi])
    ensures c.text.Some? <==> m.text.Some?
    ensures m.text.Some? ==> c.text == Some(Trim(line[m.text.value.value.lo..m.text.value.value.hi]))
  {
    TrimEmptyIff(line[m.title.lo..m.title.hi]);
    Citation(
      url := Trim(line[m.url.lo..m.url.hi]),
      title := OrElse(Some(Trim(line[m.title.lo..m.title.hi])), UnknownTitle),
      text := match m.text
              case None => None
              case Some(t) => Some(Trim(line[t.value.lo..t.value.hi])))
  }

  /** The citation a line yields, if the pattern matches it. */
  function ParseCitationLine(line: string): (r: Option<Citation>)
    ensures r.Some? ==> MatchLine(line).Some? && r.value == ToCitation(line, MatchLine(line).value)
    ensures r.Some? ==> r.value.title != ""
  {
    match MatchLine(line)
    case None => None
    case Some(m) => Some(ToCitation(line, m))
  }

  /** A line yields a citation exactly when some way of matching the pattern exists. */
  lemma ParseCitationLineIff(line: string)
    ensures ParseCitationLine(line).Some? <==> exists m :: IsMatch(line, m)
  {
    if m :| IsMatch(line, m) {
      MatchLineExact(line, m);
    }
  }

  /** The round trip of the documented format: a line written as the system prompt
      asks, `- Title: t | URL: u` with an optional ` | Text: x`, reads back as the
      citation it was written from. */
  lemma ParseLayoutLine(t: string, u: string, x: Option<string>)
    requires PlainField(t) && PlainField(u) && (x.Some? ==> TextField(x.value))
    ensures ParseCitationLine(CitationLayout(t, u, x)) == Some(Citation(u, t, x))
  {
    var line := CitationLayout(t, u, x);
    MatchLayout(t, u, x);
    CitationOfCaptures(line, LayoutMatch(line, t, u, x), t, u, x);
  }

  /** A match whose captures are the trimmed fields gives back those fields. */
  lemma CitationOfCaptures(line: string, m: LineMatch, t: string, u: string, x: Option<string>)
    requires IsMatch(line, m) && PlainField(t) && PlainField(u) && (x.Some? ==> TextField(x.value))
    requires line[m.title.lo..m.title.hi] == t && line[m.url.lo..m.url.hi] == u
    requires (m.text.Some? <==> x.Some?) && (x.Some? ==> line[m.text.value.value.lo..m.text.value.value.hi] == x.value)
    ensures ToCitation(line, m) == Citation(u, t, x)
  {
    TrimOfTrimmed(t);
    TrimOfTrimmed(u);
    if x.Some? {
      TrimOfTrimmed(x.value);
    }
  }

  predicate YieldsCitation(line: string) {
    ParseCitationLine(line).Some?
  }

  /** The citations of several lines: the line at index `k`, when it matches, gives
      the citation at its rank among the matching lines. */
  function LineCitations(lines: seq<string>): (r: seq<Citation>)
    ensures |r| == Count(lines, YieldsCitation)
    ensures forall k :: 0 <= k < |lines| && YieldsCitation(lines[k]) ==>
              && Count(lines[..k], YieldsCitation) < |r|
              && r[Count(lines[..k], YieldsCitation)] == ParseCitationLine(lines[k]).value
    ensures forall k :: 0 <= k < |r| ==> r[k].title != ""
  {
    var r := Collect(lines, ParseCitationLine);
    CountSame(lines, Present(ParseCitationLine), YieldsCitation);
    forall k | 0 <= k <= |lines|
      ensures Count(lines[..k], Present(ParseCitationLine)) == Count(lines[..k], YieldsCitation)
    {
      CountSame(lines[..k], Present(ParseCitationLine), YieldsCitation);
    }
    forall i | 0 <= i < |r| ensures r[i].title != "" {
      CollectFrom(lines, ParseCitationLine, i);
    }
    r
  }

  /** `line.trim().startsWith("-")`: the lines of a citations section that are read. */
  predicate IsListLine(line: string) {
    StartsWith(Trim(line), ListMarker)
  }

  /** The lines of a citations section, its first "Citations" removed. */
  function SectionLines(section: string): seq<string> {
    Split(RemoveFirst(section, CitationsHeading), LineBreak)
  }

  /** The list lines of a citations section: exactly its lines whose trimmed text
      starts with "-", in order, each at its rank among them. */
  function CitationLines(section: string): (lines: seq<string>)
    ensures |lines| == Count(SectionLines(section), IsListLine)
    ensures forall k :: 0 <= k < |lines| ==> IsListLine(lines[k])
    ensures forall k :: 0 <= k < |SectionLines(section)| && IsListLine(SectionLines(section)[k]) ==>
              && Count(SectionLines(section)[..k], IsListLine) < |lines|
              && lines[Count(SectionLines(section)[..k], IsListLine)] == SectionLines(section)[k]
  {
    var all := SectionLines(section);
    FilterCount(all, IsListLine);
    forall k | 0 <= k < |all| && IsListLine(all[k])
      ensures Count(all[..k], IsListLine) < |Filter(all, IsListLine)|
      ensures Filter(all, IsListLine)[Count(all[..k], IsListLine)] == all[k]
    {
      FilterAt(all, IsListLine, k);
    }
    Filter(all, IsListLine)
  }

  function SectionCitations(section: string): seq<Citation> {
    LineCitations(CitationLines(section))
  }

  // ---------------------------------------------------------------------------
  // The whole reply

  /** `text.split("###").map((s) => s.trim())`. */
  function Sections(text: string): (sections: seq<string>)
    ensures |sections| == |Split(text, SectionMarker)| >= 1
    ensures forall k :: 0 <= k < |sections| ==> sections[k] == Trim(Split(text, SectionMarker)[k])
    ensures forall k :: 0 <= k < |sections| ==> IsTrimmed(sections[k])
  {
    var parts := Split(text, SectionMarker);
    seq(|parts|, k requires 0 <= k < |parts| => Trim(parts[k]))
  }

  /** The fields gathered while walking over the sections. */
  datatype Parsed = Parsed(updated: string, citations: seq<Citation>, summary: string)

  /** One pass of the loop body: the headings are tested in this order, and a section
      with none of them is ignored. */
  function Absorb(p: Parsed, section: string): Parsed {
    if StartsWith(section, UpdatedHeading) then p.(updated := Trim(RemoveFirst(section, UpdatedHeading)))
    else if StartsWith(section, CitationsHeading) then p.(citations := p.citations + SectionCitations(section))
    else if StartsWith(section, SummaryHeading) then p.(summary := Trim(RemoveFirst(section, SummaryHeading)))
    else p
  }

  function AbsorbAll(p: Parsed, sections: seq<string>): Parsed
    decreases |sections|
  {
    if sections == [] then p else AbsorbAll(Absorb(p, sections[0]), sections[1..])
  }

  /** The result for a reply `text` to a request about `content`. */
  function ParseResponse(text: string, content: string): (r: TransformResult)
    ensures r.wordCountChange == |r.updatedContent| - |content|
  {
    var p := AbsorbAll(Parsed(content, [], DefaultSummary), Sections(text));
    TransformResult(p.updated, p.citations, |p.updated| - |content|, p.summary)
  }

  // ---------------------------------------------------------------------------
  // The same result, stated section by section

  /** Section `i` is the last one carrying `heading`. */
  ghost predicate IsLastWith(sections: seq<string>, heading: string, i: int) {
    && 0 <= i < |sections| && StartsWith(sections[i], heading)
    && forall j :: i < j < |sections| ==> !StartsWith(sections[j], heading)
  }

  ghost predicate NoneWith(sections: seq<string>, heading: string) {
    forall j :: 0 <= j < |sections| ==> !StartsWith(sections[j], heading)
  }

  /** The citations of every citations section, in order. */
  function AllCitations(sections: seq<string>): seq<Citation>
    decreases |sections|
  {
    if sections == [] then []
    else OwnCitations(sections[0]) + AllCitations(sections[1..])
  }

  /** The three headings exclude one another. */
  lemma HeadingsDisjoint(s: string)
    ensures StartsWith(s, CitationsHeading) ==> !StartsWith(s, UpdatedHeading)
    ensures StartsWith(s, SummaryHeading) ==> !StartsWith(s, UpdatedHeading) && !StartsWith(s, CitationsHeading)
  {
    if StartsWith(s, CitationsHeading) {
      assert s[0] == CitationsHeading[0];
    }
    if StartsWith(s, SummaryHeading) {
      assert s[0] == SummaryHeading[0] && s[1] == SummaryHeading[1];
    }
  }

  /** Text after a heading, trimmed. */
  function Body(section: string, heading: string): string
    requires StartsWith(section, heading)
  {
    Trim(section[|heading|..])
  }

  lemma {:induction false} AbsorbAllUpdated(p: Parsed, sections: seq<string>)
    ensures NoneWith(sections, UpdatedHeading) ==> AbsorbAll(p, sections).updated == p.updated
    ensures forall i :: IsLastWith(sections, UpdatedHeading, i) ==>
              AbsorbAll(p, sections).updated == Body(sections[i], UpdatedHeading)
    decreases |sections|
  {
    if sections != [] {
      var s := sections[0];
      var rest := sections[1..];
      AbsorbAllUpdated(Absorb(p, s), rest);
      HeadingsDisjoint(s);
      if StartsWith(s, UpdatedHeading) {
        RemoveFirstOfPrefix(s, UpdatedHeading);
      }
      forall i | IsLastWith(sections, UpdatedHeading, i)
        ensures AbsorbAll(p, sections).updated == Body(sections[i], UpdatedHeading)
      {
        if i > 0 {
          assert IsLastWith(rest, UpdatedHeading, i - 1);
        } else {
          assert NoneWith(rest, UpdatedHeading);
        }
      }
      if NoneWith(sections, UpdatedHeading) {
        assert NoneWith(rest, UpdatedHeading);
      }
    }
  }

  lemma {:induction false} AbsorbAllSummary(p: Parsed, sections: seq<string>)
    ensures NoneWith(sections, SummaryHeading) ==> AbsorbAll(p, sections).summary == p.summary
    ensures forall i :: IsLastWith(sections, SummaryHeading, i) ==>
              AbsorbAll(p, sections).summary == Body(sections[i], SummaryHeading)
    decreases |sections|
  {
    if sections != [] {
      var s := sections[0];
      var rest := sections[1..];
      AbsorbAllSummary(Absorb(p, s), rest);
      HeadingsDisjoint(s);
      if StartsWith(s, SummaryHeading) {
        RemoveFirstOfPrefix(s, SummaryHeading);
      }
      forall i | IsLastWith(sections, SummaryHeading, i)
        ensures AbsorbAll(p, sections).summary == Body(sections[i], SummaryHeading)
      {
        if i > 0 {
          assert IsLastWith(rest, SummaryHeading, i - 1);
        } else {
          assert NoneWith(rest, SummaryHeading);
        }
      }
      if NoneWith(sections, SummaryHeading) {
        assert NoneWith(rest, SummaryHeading);
      }
    }
  }

  /** The citations one section contributes. */
  function OwnCitations(section: string): seq<Citation> {
    if StartsWith(section, CitationsHeading) then SectionCitations(section) else []
  }

  lemma AbsorbCitations(p: Parsed, section: string)
    ensures Absorb(p, section).citations == p.citations + OwnCitations(section)
  {
    HeadingsDisjoint(section);
  }

  lemma {:induction false} AbsorbAllCitations(p: Parsed, sections: seq<string>)
    ensures AbsorbAll(p, sections).citations == p.citations + AllCitations(sections)
    decreases |sections|
  {
    if sections != [] {
      var s := sections[0];
      var q := Absorb(p, s);
      var own := OwnCitations(s);
      var rest := AllCitations(sections[1..]);
      AbsorbAllCitations(q, sections[1..]);
      AbsorbCitations(p, s);
      assert AbsorbAll(p, sections) == AbsorbAll(q, sections[1..]);
      assert AllCitations(sections) == own + rest;
      assert (p.citations + own) + rest == p.citations + (own + rest);
    }
  }

  /** The reply's result, field by field: the body of the last "Updated Content"
      section (the original content when there is none), the citations of all
      "Citations" sections in order, the body of the last "Changes Summary" section
      (`DefaultSummary` when there is none), and the change in length. */
  lemma ParseResponseSpec(text: string, content: string)
    ensures var r := ParseResponse(text, content);
            var sections := Sections(text);
            && (NoneWith(sections, UpdatedHeading) ==> r.updatedContent == content)
            && (forall i :: IsLastWith(sections, UpdatedHeading, i) ==> r.updatedContent == Body(sections[i], UpdatedHeading))
            && r.citations == AllCitations(sections)
            && (NoneWith(sections, SummaryHeading) ==> r.sentimentShift == DefaultSummary)
            && (forall i :: IsLastWith(sections, SummaryHeading, i) ==> r.sentimentShift == Body(sections[i], SummaryHeading))
            && r.wordCountChange == |r.updatedContent| - |content|
  {
    var p := Parsed(content, [], DefaultSummary);
    AbsorbAllUpdated(p, Sections(text));
    AbsorbAllSummary(p, Sections(text));
    AbsorbAllCitations(p, Sections(text));
  }

  /** Every citation in a result has a title. */
  lemma {:induction false} AllCitationsTitled(sections: seq<string>)
    ensures forall k :: 0 <= k < |AllCitations(sections)| ==> AllCitations(sections)[k].title != ""
    decreases |sections|
  {
    if sections != [] {
      AllCitationsTitled(sections[1..]);
    }
  }
}
