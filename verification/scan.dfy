/**
 The per-URL scan of the tag checker (`check_tag_presence`). The browser and the
 network are not modelled: what they return for one URL is an Observation, and
 BuildReport is the decision logic that turns an Observation into a Report.
 */
module Scan {
  import opened Wrappers
  import opened Text
  import opened Decimal
  import opened LineIndex

  /** How many sample lines a head or body match lists (`max_matches=5`). */
  const SampleCap := 5

  /** A `script` element: its inner HTML and its `src` attribute, if any. */
  datatype Script = Script(content: string, src: Option<string>)

  /** A `head` or `body` element: its inner HTML and the `script` elements under it. */
  datatype Section = Section(html: string, scripts: seq<Script>)

  /** What the browser and the direct fetch produced for one URL. */
  datatype Observation =
    | LaunchFailed(launchMessage: string)     // starting the browser raised
    | NavTimeout                              // `page.goto` timed out
    | NavError(navMessage: string)            // `page.goto` raised anything else
    | Loaded(
        finalUrl: string,                     // `page.url` after loading
        statusCode: Option<int>,              // None when `goto` returned no response
        head: Option<Section>,
        body: Option<Section>,
        pageSource: string,                   // `page.content()`
        viewSource: Option<string>)           // `fetch_view_source(url)`; None on failure

  datatype Part = Head | Body

  /** The classification the report ends with. */
  datatype Status =
    | Unchecked                      // the initial value
    | Found(head: bool, body: bool)  // found in the head and/or the body
    | FoundElsewhere                 // found in the page source only
    | NotFound
    | Redirect
    | Http404
    | Timeout
    | Error(message: string)
    | BrowserInitError(message: string)

  /** One line of the report's `details`. */
  datatype Evidence =
    | RedirectedTo(target: string)
    | MarkerIn(part: Part)
    | PartSample(part: Part, lineNo: nat, text: string)
    | PartSamplesTruncated(part: Part)
    | ScriptContentMatch(part: Part, index: nat)
    | ScriptSrcMatch(part: Part, index: nat)
    | DocumentLineNumbers(numbers: seq<nat>)
    | DocumentSample(lineNo: nat, text: string)
    | ViewSourceLineNumbers(numbers: seq<nat>)
    | ViewSourceUnavailable

  /** The result record of one scan. */
  datatype Report = Report(
    url: string,
    status: Status,
    inHead: bool,
    inBody: bool,
    inHtml: bool,
    lineNumbers: seq<nat>,
    lineNumbersViewSource: seq<nat>,
    details: seq<Evidence>)

  /** The record a scan starts from. */
  function Initial(url: string): Report {
    Report(url, Unchecked, false, false, false, [], [], [])
  }

  /** The report of a scan that stopped before the page loaded: no flag set,
      no line number, no evidence. */
  predicate Blank(r: Report) {
    && !r.inHead && !r.inBody && !r.inHtml
    && r.lineNumbers == [] && r.lineNumbersViewSource == [] && r.details == []
  }

  /** Is `e` a line about `part`? */
  predicate NamesPart(e: Evidence, part: Part) {
    (e.MarkerIn? || e.PartSample? || e.PartSamplesTruncated? || e.ScriptContentMatch? || e.ScriptSrcMatch?)
    && e.part == part
  }

  // ---------------------------------------------------------------------------
  // Evidence for the head and the body
  // ---------------------------------------------------------------------------

  /** One PartSample line per sampled match. */
  function SampleLines(part: Part, ms: seq<(nat, string)>): (r: seq<Evidence>)
    ensures |r| == |ms|
    ensures forall k :: 0 <= k < |r| ==> r[k] == PartSample(part, ms[k].0, ms[k].1)
  {
    seq(|ms|, k requires 0 <= k < |ms| => PartSample(part, ms[k].0, ms[k].1))
  }

  /** The sample lines of a part whose HTML contains the marker, followed by
      the "only partly shown" note when the cap was reached. */
  function PartSamples(part: Part, html: string, marker: string): seq<Evidence> {
    var ms := FindLineMatches(html, marker, SampleCap);
    SampleLines(part, ms) + (if |ms| >= SampleCap then [PartSamplesTruncated(part)] else [])
  }

  /** A part's samples are its first (at most five) matching lines, numbered
      and stripped, in order; the truncation note follows exactly when five
      were listed, which is when five or more lines match. */
  lemma {:induction false} PartSamplesSpec(part: Part, html: string, marker: string)
    ensures var r := PartSamples(part, html, marker);
            var ms := FindLineMatches(html, marker, SampleCap);
            && |ms| <= SampleCap
            && |r| == |ms| + (if |ms| == SampleCap then 1 else 0)
            && (forall k :: 0 <= k < |ms| ==> r[k] == PartSample(part, ms[k].0, ms[k].1))
            && (PartSamplesTruncated(part) in r <==> |ms| == SampleCap)
            && (PartSamplesTruncated(part) in r <==> |FindLineNumbers(html, marker)| >= SampleCap)
  {
  }

  /** A part's samples are sample lines and the truncation note of that part. */
  lemma {:induction false} PartSamplesKinds(part: Part, html: string, marker: string)
    ensures forall e :: e in PartSamples(part, html, marker) ==> (e.PartSample? || e.PartSamplesTruncated?) && e.part == part
  {
    var ms := FindLineMatches(html, marker, SampleCap);
    var samples := SampleLines(part, ms);
    assert forall e :: e in samples ==> e.PartSample? && e.part == part;
  }

  /** `script.get_attribute("src") or ""`. */
  function SrcText(s: Script): string {
    s.src.GetOr("")
  }

  /** The note for script number `i` of a part: its content is checked before
      its `src`, and the first that holds the marker wins. */
  function ScriptNote(part: Part, i: nat, s: Script, marker: string): (r: seq<Evidence>)
    ensures |r| <= 1
    ensures r == [ScriptContentMatch(part, i)] <==> Contains(s.content, marker)
    ensures r == [ScriptSrcMatch(part, i)] <==> !Contains(s.content, marker) && Contains(SrcText(s), marker)
    ensures r == [] <==> !Contains(s.content, marker) && !Contains(SrcText(s), marker)
  {
    if Contains(s.content, marker) then [ScriptContentMatch(part, i)]
    else if Contains(SrcText(s), marker) then [ScriptSrcMatch(part, i)]
    else []
  }

  /** Is `e` a note about one script of `part`, numbered `from` or later? */
  predicate IsScriptNote(e: Evidence, part: Part, from: nat) {
    (e.ScriptContentMatch? || e.ScriptSrcMatch?) && e.part == part && from <= e.index
  }

  /** The notes of the scripts `scripts`, numbered from `from`, in order. */
  function ScriptNotes(part: Part, scripts: seq<Script>, marker: string, from: nat): seq<Evidence>
    decreases |scripts|
  {
    if scripts == [] then []
    else ScriptNote(part, from, scripts[0], marker) + ScriptNotes(part, scripts[1..], marker, from + 1)
  }

  /** Each script gets at most one note, and the notes name this part's
      scripts, numbered from `from`. */
  lemma {:induction false} ScriptNotesShape(part: Part, scripts: seq<Script>, marker: string, from: nat)
    ensures var r := ScriptNotes(part, scripts, marker, from);
            && |r| <= |scripts|
            && (forall k :: 0 <= k < |r| ==> IsScriptNote(r[k], part, from) && r[k].index < from + |scripts|)
    decreases |scripts|
  {
    if scripts != [] {
      var note := ScriptNote(part, from, scripts[0], marker);
      var rest := ScriptNotes(part, scripts[1..], marker, from + 1);
      ScriptNotesShape(part, scripts[1..], marker, from + 1);
      var r := note + rest;
      forall k | 0 <= k < |r| ensures IsScriptNote(r[k], part, from) && r[k].index < from + |scripts| {
        if k < |note| {
          assert r[k] == note[k];
        } else {
          assert r[k] == rest[k - |note|];
        }
      }
    }
  }

  /** The notes come in script order. */
  lemma {:induction false} ScriptNotesOrdered(part: Part, scripts: seq<Script>, marker: string, from: nat)
    ensures var r := ScriptNotes(part, scripts, marker, from);
            forall k, j :: 0 <= k < j < |r| && IsScriptNote(r[k], part, from) && IsScriptNote(r[j], part, from) ==>
              r[k].index < r[j].index
    decreases |scripts|
  {
    if scripts != [] {
      var note := ScriptNote(part, from, scripts[0], marker);
      var rest := ScriptNotes(part, scripts[1..], marker, from + 1);
      ScriptNotesOrdered(part, scripts[1..], marker, from + 1);
      ScriptNotesShape(part, scripts[1..], marker, from + 1);
      var r := note + rest;
      var d := |note|;
      forall k, j | 0 <= k < j < |r| && IsScriptNote(r[k], part, from) && IsScriptNote(r[j], part, from)
        ensures r[k].index < r[j].index
      {
        assert r[j] == rest[j - d];
        if k < d {
          assert r[k].index == from;
          assert IsScriptNote(rest[j - d], part, from + 1);
        } else {
          assert r[k] == rest[k - d];
          assert IsScriptNote(rest[k - d], part, from + 1) && IsScriptNote(rest[j - d], part, from + 1);
        }
      }
    }
  }

  /** Script number `from + i` gets a content note exactly when its content
      holds the marker, and a src note exactly when its content does not but
      its `src` does. */
  lemma {:induction false} ScriptNotesAt(part: Part, scripts: seq<Script>, marker: string, from: nat, i: nat)
    requires i < |scripts|
    ensures var r := ScriptNotes(part, scripts, marker, from);
            && (ScriptContentMatch(part, from + i) in r <==> Contains(scripts[i].content, marker))
            && (ScriptSrcMatch(part, from + i) in r <==>
                  !Contains(scripts[i].content, marker) && Contains(SrcText(scripts[i]), marker))
    decreases i
  {
    var note := ScriptNote(part, from, scripts[0], marker);
    var rest := ScriptNotes(part, scripts[1..], marker, from + 1);
    ScriptNotesShape(part, scripts[1..], marker, from + 1);
    if i == 0 {
      assert ScriptContentMatch(part, from) !in rest;
      assert ScriptSrcMatch(part, from) !in rest;
    } else {
      ScriptNotesAt(part, scripts[1..], marker, from + 1, i - 1);
      assert scripts[1..][i - 1] == scripts[i];
    }
  }

  /** Does the part exist and does its HTML contain the marker? */
  predicate PartHas(sec: Option<Section>, marker: string) {
    sec.Some? && Contains(sec.value.html, marker)
  }

  /** Everything the head or body step adds to `details`. */
  function PartEvidence(part: Part, sec: Option<Section>, marker: string): seq<Evidence> {
    match sec
    case None => []
    case Some(s) =>
      (if Contains(s.html, marker) then [MarkerIn(part)] + PartSamples(part, s.html, marker) else [])
        + ScriptNotes(part, s.scripts, marker, 0)
  }

  /** The head or body step: when the part exists and its HTML contains the
      marker, its flag is set and its samples listed; then its scripts' notes. */
  function SearchPart(r: Report, part: Part, sec: Option<Section>, marker: string): (r': Report)
    ensures r'.url == r.url && r'.status == r.status && r'.inHtml == r.inHtml
    ensures r'.lineNumbers == r.lineNumbers && r'.lineNumbersViewSource == r.lineNumbersViewSource
    ensures r'.inHead == (r.inHead || (part.Head? && PartHas(sec, marker)))
    ensures r'.inBody == (r.inBody || (part.Body? && PartHas(sec, marker)))
    ensures r'.details == r.details + PartEvidence(part, sec, marker)
  {
    var flagged :=
      if !PartHas(sec, marker) then r
      else if part == Head then r.(inHead := true)
      else r.(inBody := true);
    flagged.(details := r.details + PartEvidence(part, sec, marker))
  }

  // ---------------------------------------------------------------------------
  // The whole document and the view-source fetch
  // ---------------------------------------------------------------------------

  /** The fallback samples of the whole document, as DocumentSample lines. */
  function DocumentSamples(ms: seq<(nat, string)>): (r: seq<Evidence>)
    ensures |r| == |ms|
    ensures forall k :: 0 <= k < |r| ==> r[k] == DocumentSample(ms[k].0, ms[k].1)
  {
    seq(|ms|, k requires 0 <= k < |ms| => DocumentSample(ms[k].0, ms[k].1))
  }

  /** What the whole-document step adds to `details`: the matching line
      numbers, or the sample lines when there are none. */
  function DocumentEvidence(pageSource: string, marker: string): seq<Evidence> {
    if Contains(pageSource, marker) then
      var ns := FindLineNumbers(pageSource, marker);
      if ns != [] then [DocumentLineNumbers(ns)]
      else DocumentSamples(FindLineMatches(pageSource, marker, SampleCap))
    else []
  }

  /** The whole-document step. */
  function SearchDocument(r: Report, pageSource: string, marker: string): (r': Report)
    ensures r'.url == r.url && r'.status == r.status && r'.inHead == r.inHead && r'.inBody == r.inBody
    ensures r'.lineNumbersViewSource == r.lineNumbersViewSource
    ensures r'.inHtml == (r.inHtml || Contains(pageSource, marker))
    ensures r'.lineNumbers == if Contains(pageSource, marker) then FindLineNumbers(pageSource, marker) else r.lineNumbers
    ensures r'.details == r.details + DocumentEvidence(pageSource, marker)
  {
    if Contains(pageSource, marker) then
      r.(inHtml := true,
         lineNumbers := FindLineNumbers(pageSource, marker),
         details := r.details + DocumentEvidence(pageSource, marker))
    else r
  }

  /** `if view_source_html:` — a failed fetch and an empty page both count as unavailable. */
  predicate ViewSourceUsable(viewSource: Option<string>) {
    viewSource.Some? && viewSource.value != ""
  }

  /** The view-source line numbers the report ends with. */
  function ViewSourceNumbers(viewSource: Option<string>, marker: string): seq<nat> {
    if ViewSourceUsable(viewSource) && Contains(viewSource.value, marker)
    then FindLineNumbers(viewSource.value, marker)
    else []
  }

  /** What the view-source step adds to `details`. */
  function ViewSourceEvidence(viewSource: Option<string>, marker: string): seq<Evidence> {
    if !ViewSourceUsable(viewSource) then [ViewSourceUnavailable]
    else
      var ns := ViewSourceNumbers(viewSource, marker);
      if ns != [] then [ViewSourceLineNumbers(ns)] else []
  }

  /** The view-source step. */
  function CrossCheckViewSource(r: Report, viewSource: Option<string>, marker: string): (r': Report)
    ensures r'.url == r.url && r'.status == r.status && r'.inHead == r.inHead && r'.inBody == r.inBody
    ensures r'.inHtml == r.inHtml && r'.lineNumbers == r.lineNumbers
    ensures r'.lineNumbersViewSource ==
              if ViewSourceUsable(viewSource) && Contains(viewSource.value, marker)
              then FindLineNumbers(viewSource.value, marker) else r.lineNumbersViewSource
    ensures r'.details == r.details + ViewSourceEvidence(viewSource, marker)
  {
    if ViewSourceUsable(viewSource) then
      if Contains(viewSource.value, marker) then
        var ns := FindLineNumbers(viewSource.value, marker);
        r.(lineNumbersViewSource := ns,
           details := r.details + (if ns != [] then [ViewSourceLineNumbers(ns)] else []))
      else r
    else r.(details := r.details + [ViewSourceUnavailable])
  }

  // ---------------------------------------------------------------------------
  // The verdict and the whole scan
  // ---------------------------------------------------------------------------

  /** The overall verdict from the three flags. */
  function Verdict(inHead: bool, inBody: bool, inHtml: bool): Status {
    if inHead || inBody then Found(inHead, inBody)
    else if inHtml then FoundElsewhere
    else NotFound
  }

  function Classify(r: Report): Report {
    r.(status := Verdict(r.inHead, r.inBody, r.inHtml))
  }

  /** The redirect line: present when the page ended at another URL. */
  function RedirectEvidence(url: string, finalUrl: string): seq<Evidence> {
    if finalUrl != url then [RedirectedTo(finalUrl)] else []
  }

  /** The part of the scan after a load whose status is not 404. */
  function Extract(r: Report, obs: Observation, marker: string): (e: Report)
    requires obs.Loaded?
    ensures e.url == r.url
    ensures e.status == Verdict(e.inHead, e.inBody, e.inHtml)
  {
    var withHead := SearchPart(r, Head, obs.head, marker);
    var withBody := SearchPart(withHead, Body, obs.body, marker);
    var withDocument := SearchDocument(withBody, obs.pageSource, marker);
    var withViewSource := CrossCheckViewSource(withDocument, obs.viewSource, marker);
    Classify(withViewSource)
  }

  /** `check_tag_presence(url, marker)` with the browser's answers given as
      `obs`. A scan that fails before the page loads reports only its status;
      a 404 reports its status and the redirect line, nothing else; the
      tentative Redirect status never survives. */
  function BuildReport(url: string, marker: string, obs: Observation): (r: Report)
    ensures r.url == url
    ensures r.status != Unchecked && r.status != Redirect
    ensures obs.LaunchFailed? ==> r.status == BrowserInitError(obs.launchMessage) && Blank(r)
    ensures obs.NavTimeout? ==> r.status == Timeout && Blank(r)
    ensures obs.NavError? ==> r.status == Error(obs.navMessage) && Blank(r)
    ensures obs.Loaded? && obs.statusCode == Some(404) ==>
              && r.status == Http404
              && !r.inHead && !r.inBody && !r.inHtml
              && r.lineNumbers == [] && r.lineNumbersViewSource == []
              && r.details == RedirectEvidence(url, obs.finalUrl)
  {
    var r0 := Initial(url);
    match obs
    case LaunchFailed(m) => r0.(status := BrowserInitError(m))
    case NavTimeout => r0.(status := Timeout)
    case NavError(m) => r0.(status := Error(m))
    case Loaded(finalUrl, statusCode, _, _, _, _) =>
      var r1 :=
        if finalUrl != url then r0.(status := Redirect, details := [RedirectedTo(finalUrl)])
        else r0;
      if statusCode == Some(404) then r1.(status := Http404)
      else Extract(r1, obs, marker)
  }
}
