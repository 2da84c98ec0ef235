/** The parsed-markup capability the scrapers consume, abstracted to what each
    selector expression matches. Parsing and the selector engine itself are not
    modelled: a page is given as the answer to every selector it is asked. */
module Markup {
  import opened Wrappers
  import opened Strings

  /** One matched element: its text content, its `href` attribute when it has one,
      and what each selector matches inside it (`$(element).find(selector)`). */
  datatype Element = Element(text: string, href: Option<string>, inside: map<string, seq<Element>>)

  /** A parsed page: for each selector expression, its matches in document order. */
  type Document = map<string, seq<Element>>

  /** `$(selector)`: every match, in document order; nothing for an unknown selector. */
  function Select(doc: Document, selector: string): seq<Element> {
    if selector in doc then doc[selector] else []
  }

  /** The texts of `elements`, concatenated. */
  function ConcatTexts(elements: seq<Element>): string
    decreases |elements|
  {
    if elements == [] then "" else elements[0].text + ConcatTexts(elements[1..])
  }

  /** `$(selector).text()`: the text of all matches together. */
  function Text(doc: Document, selector: string): string {
    ConcatTexts(Select(doc, selector))
  }

  /** `$(selector).first().text()`: the first match's text, or "" when nothing matches. */
  function FirstText(doc: Document, selector: string): string {
    var found := Select(doc, selector);
    if found == [] then "" else found[0].text
  }

  /** `$(selector).attr("href")`: the first match's `href`, absent when nothing matches. */
  function FirstHref(doc: Document, selector: string): Option<string> {
    var found := Select(doc, selector);
    if found == [] then None else found[0].href
  }

  /** The trimmed first-match text of a selector (`$(s).first().text().trim()`). */
  function Probe(doc: Document, selector: string): string {
    Trim(FirstText(doc, selector))
  }

  /** What a cascade inspects for each selector: its trimmed first-match text. */
  function Probes(doc: Document, selectors: seq<string>): (texts: seq<string>)
    ensures |texts| == |selectors|
    ensures forall j :: 0 <= j < |selectors| ==> texts[j] == Probe(doc, selectors[j])
  {
    seq(|selectors|, j requires 0 <= j < |selectors| => Probe(doc, selectors[j]))
  }

  /** A cascade: the index of the first text, from position `from` on, longer than
      `minLength` characters. */
  function FirstLonger(texts: seq<string>, minLength: nat, from: nat): (r: Option<nat>)
    requires from <= |texts|
    ensures r.Some? ==> from <= r.value < |texts| && |texts[r.value]| > minLength
    ensures r.Some? ==> forall j :: from <= j < r.value ==> |texts[j]| <= minLength
    ensures r.None? ==> forall j :: from <= j < |texts| ==> |texts[j]| <= minLength
    decreases |texts| - from
  {
    if from == |texts| then None
    else if |texts[from]| > minLength then Some(from)
    else FirstLonger(texts, minLength, from + 1)
  }
}
