/**
 What a scan report says, stated against the observation it was built from:
 the flags, the line numbers, the verdict and the layout of `details`.
 */
module ScanProperties {
  import opened Wrappers
  import opened Text
  import opened LineIndex
  import opened Scan

  /** The page loaded and did not answer 404: the path on which the scan searches. */
  predicate Searched(obs: Observation) {
    obs.Loaded? && obs.statusCode != Some(404)
  }

  /** The head or the body, as the observation gives it. */
  function SectionOf(obs: Observation, part: Part): Option<Section>
    requires obs.Loaded?
  {
    if part == Head then obs.head else obs.body
  }

  /** The evidence lines of a searched page, in the order the scan emits them:
      the redirect line, the head's lines, the body's lines, the document's
      lines and the view-source lines. This is the scan's own accumulation,
      named so that the lemmas below can state, line kind by line kind, what
      the details of a report contain. */
  function Layout(url: string, marker: string, obs: Observation): seq<Evidence>
    requires obs.Loaded?
  {
    RedirectEvidence(url, obs.finalUrl)
    + PartEvidence(Head, obs.head, marker)
    + PartEvidence(Body, obs.body, marker)
    + DocumentEvidence(obs.pageSource, marker)
    + ViewSourceEvidence(obs.viewSource, marker)
  }

  /** On the searched path the flags say where the marker is and the line
      numbers come from the page source and the view-source text. The last
      conjunct only connects `details` to `Layout`, for the membership lemmas
      below. */
  lemma {:induction false} SearchedReport(url: string, marker: string, obs: Observation)
    requires Searched(obs)
    ensures var r := BuildReport(url, marker, obs);
            && (r.inHead <==> obs.head.Some? && Contains(obs.head.value.html, marker))
            && (r.inBody <==> obs.body.Some? && Contains(obs.body.value.html, marker))
            && (r.inHtml <==> Contains(obs.pageSource, marker))
            && r.lineNumbers == (if r.inHtml then FindLineNumbers(obs.pageSource, marker) else [])
            && r.lineNumbersViewSource ==
                 (if ViewSourceUsable(obs.viewSource) && Contains(obs.viewSource.value, marker)
                  then FindLineNumbers(obs.viewSource.value, marker) else [])
            && r.details == Layout(url, marker, obs)
  {
  }

  /** The verdict on the searched path: found in the head and/or the body when
      either flag holds (HEAD listed first), found elsewhere when only the
      document holds the marker, not found otherwise. */
  lemma FinalStatus(url: string, marker: string, obs: Observation)
    requires Searched(obs)
    ensures var r := BuildReport(url, marker, obs);
            && (r.inHead || r.inBody ==> r.status == Found(r.inHead, r.inBody))
            && (!r.inHead && !r.inBody && r.inHtml ==> r.status == FoundElsewhere)
            && (!r.inHead && !r.inBody && !r.inHtml ==> r.status == NotFound)
  {
  }

  /** The document line numbers do not depend on the `in` guard in front of
      them: a marker found on some line is found in the page source, so the
      report's line numbers are those of the whole page source in every case. */
  lemma {:induction false} LineNumbersOfPageSource(url: string, marker: string, obs: Observation)
    requires Searched(obs)
    ensures BuildReport(url, marker, obs).lineNumbers == FindLineNumbers(obs.pageSource, marker)
  {
    SearchedReport(url, marker, obs);
    NoContainsNoLines(obs.pageSource, marker);
  }

  /** Every line of a part's evidence is about that part. */
  lemma {:induction false} PartEvidenceKinds(part: Part, sec: Option<Section>, marker: string)
    ensures forall e :: e in PartEvidence(part, sec, marker) ==> NamesPart(e, part)
  {
    if sec.Some? {
      var s := sec.value;
      PartSamplesKinds(part, s.html, marker);
      ScriptNotesShape(part, s.scripts, marker, 0);
      var notes := ScriptNotes(part, s.scripts, marker, 0);
      var pre := if Contains(s.html, marker) then [MarkerIn(part)] + PartSamples(part, s.html, marker) else [];
      assert PartEvidence(part, sec, marker) == pre + notes;
      forall e | e in pre + notes ensures NamesPart(e, part) {
        if e in notes {
          var k :| 0 <= k < |notes| && notes[k] == e;
          assert IsScriptNote(notes[k], part, 0);
        }
      }
    }
  }

  /** The document's evidence lines are line-number lines or sample lines. */
  lemma DocumentEvidenceKinds(pageSource: string, marker: string)
    ensures forall e :: e in DocumentEvidence(pageSource, marker) ==> e.DocumentLineNumbers? || e.DocumentSample?
  {
  }

  /** Which line kinds can come from which piece of the layout. */
  lemma {:induction false} LayoutKinds(url: string, marker: string, obs: Observation, e: Evidence)
    requires obs.Loaded?
    requires e in Layout(url, marker, obs)
    ensures e.RedirectedTo? ==> e in RedirectEvidence(url, obs.finalUrl)
    ensures NamesPart(e, Head) ==> e in PartEvidence(Head, obs.head, marker)
    ensures NamesPart(e, Body) ==> e in PartEvidence(Body, obs.body, marker)
    ensures e.DocumentLineNumbers? || e.DocumentSample? ==> e in DocumentEvidence(obs.pageSource, marker)
    ensures e.ViewSourceUnavailable? || e.ViewSourceLineNumbers? ==> e in ViewSourceEvidence(obs.viewSource, marker)
  {
    var redirect, head, body := RedirectEvidence(url, obs.finalUrl), PartEvidence(Head, obs.head, marker), PartEvidence(Body, obs.body, marker);
    var document, viewSource := DocumentEvidence(obs.pageSource, marker), ViewSourceEvidence(obs.viewSource, marker);
    assert e in redirect || e in head || e in body || e in document || e in viewSource;
    PartEvidenceKinds(Head, obs.head, marker);
    PartEvidenceKinds(Body, obs.body, marker);
    DocumentEvidenceKinds(obs.pageSource, marker);
  }

  /** The document step only ever adds its line-number line: when no line
      matches, the fallback listing has no line to list either. */
  lemma DocumentEvidenceIsNumbers(pageSource: string, marker: string)
    ensures forall e :: e in DocumentEvidence(pageSource, marker) ==> e.DocumentLineNumbers?
  {
    if Contains(pageSource, marker) && FindLineNumbers(pageSource, marker) == [] {
      assert FindLineMatches(pageSource, marker, SampleCap) == [];
    }
  }

  /** The sample-line fallback for the whole document never produces a line:
      it runs only when no line holds the marker, and then it finds none. */
  lemma {:induction false} NoDocumentSamples(url: string, marker: string, obs: Observation)
    ensures forall e :: e in BuildReport(url, marker, obs).details ==> !e.DocumentSample?
  {
    if Searched(obs) {
      SearchedReport(url, marker, obs);
      DocumentEvidenceIsNumbers(obs.pageSource, marker);
      forall e | e in Layout(url, marker, obs) ensures !e.DocumentSample? {
        LayoutKinds(url, marker, obs, e);
      }
    }
  }

  /** No script past the last one has a note. */
  lemma {:induction false} ScriptNotesBeyond(part: Part, scripts: seq<Script>, marker: string, from: nat, i: nat)
    requires i >= |scripts|
    ensures ScriptContentMatch(part, from + i) !in ScriptNotes(part, scripts, marker, from)
    ensures ScriptSrcMatch(part, from + i) !in ScriptNotes(part, scripts, marker, from)
  {
    var notes := ScriptNotes(part, scripts, marker, from);
    ScriptNotesShape(part, scripts, marker, from);
    forall k | 0 <= k < |notes|
      ensures notes[k] != ScriptContentMatch(part, from + i) && notes[k] != ScriptSrcMatch(part, from + i)
    {
      assert IsScriptNote(notes[k], part, from);
    }
  }

  /** Script `i` has a content note among the script notes exactly when it
      exists and its content holds the marker, and a src note exactly when it
      exists and only its `src` does. */
  lemma {:induction false} ScriptNotesFor(part: Part, scripts: seq<Script>, marker: string, i: nat)
    ensures var notes := ScriptNotes(part, scripts, marker, 0);
            && (ScriptContentMatch(part, i) in notes <==>
                  i < |scripts| && Contains(scripts[i].content, marker))
            && (ScriptSrcMatch(part, i) in notes <==>
                  i < |scripts| && !Contains(scripts[i].content, marker) && Contains(SrcText(scripts[i]), marker))
  {
    if i < |scripts| {
      ScriptNotesAt(part, scripts, marker, 0, i);
    } else {
      ScriptNotesBeyond(part, scripts, marker, 0, i);
    }
  }

  /** The script notes of a part are the only script notes among its lines. */
  lemma {:induction false} PartNotesAreScriptNotes(part: Part, s: Section, marker: string, e: Evidence)
    requires e.ScriptContentMatch? || e.ScriptSrcMatch?
    ensures e in PartEvidence(part, Some(s), marker) <==> e in ScriptNotes(part, s.scripts, marker, 0)
  {
    var notes := ScriptNotes(part, s.scripts, marker, 0);
    PartSamplesKinds(part, s.html, marker);
    var pre := if Contains(s.html, marker) then [MarkerIn(part)] + PartSamples(part, s.html, marker) else [];
    assert e !in pre;
    assert PartEvidence(part, Some(s), marker) == pre + notes;
  }

  /** Script `i` of a part has a content note among the part's lines exactly
      when its content holds the marker, and a src note exactly when only its
      `src` does. */
  lemma {:induction false} PartScriptNotes(part: Part, sec: Option<Section>, marker: string, i: nat)
    ensures var mine := PartEvidence(part, sec, marker);
            && (ScriptContentMatch(part, i) in mine <==>
                  sec.Some? && i < |sec.value.scripts| && Contains(sec.value.scripts[i].content, marker))
            && (ScriptSrcMatch(part, i) in mine <==>
                  sec.Some? && i < |sec.value.scripts|
                  && !Contains(sec.value.scripts[i].content, marker)
                  && Contains(SrcText(sec.value.scripts[i]), marker))
  {
    if sec.Some? {
      PartNotesAreScriptNotes(part, sec.value, marker, ScriptContentMatch(part, i));
      PartNotesAreScriptNotes(part, sec.value, marker, ScriptSrcMatch(part, i));
      ScriptNotesFor(part, sec.value.scripts, marker, i);
    }
  }

  /** A part's lines are lines of the layout. */
  lemma {:induction false} PartInLayout(url: string, marker: string, obs: Observation, part: Part, e: Evidence)
    requires obs.Loaded?
    requires e in PartEvidence(part, SectionOf(obs, part), marker)
    ensures e in Layout(url, marker, obs)
  {
  }

  /** Script `i` of a part has a content note in the layout exactly when its
      content holds the marker, and a src note exactly when only its `src` does. */
  lemma {:induction false} LayoutScriptNotes(url: string, marker: string, obs: Observation, part: Part, i: nat)
    requires obs.Loaded?
    ensures var d := Layout(url, marker, obs);
            var sec := SectionOf(obs, part);
            && (ScriptContentMatch(part, i) in d <==>
                  sec.Some? && i < |sec.value.scripts| && Contains(sec.value.scripts[i].content, marker))
            && (ScriptSrcMatch(part, i) in d <==>
                  sec.Some? && i < |sec.value.scripts|
                  && !Contains(sec.value.scripts[i].content, marker)
                  && Contains(SrcText(sec.value.scripts[i]), marker))
  {
    var sec := SectionOf(obs, part);
    var d := Layout(url, marker, obs);
    var mine := PartEvidence(part, sec, marker);
    PartScriptNotes(part, sec, marker, i);
    var content, src := ScriptContentMatch(part, i), ScriptSrcMatch(part, i);
    if content in d {
      LayoutKinds(url, marker, obs, content);
    }
    if src in d {
      LayoutKinds(url, marker, obs, src);
    }
    if content in mine {
      PartInLayout(url, marker, obs, part, content);
    }
    if src in mine {
      PartInLayout(url, marker, obs, part, src);
    }
  }

  /** On the searched path, script `i` of the head (or body) has a content note
      in `details` exactly when its content holds the marker, and a src note
      exactly when only its `src` does; so never both. */
  lemma {:induction false} ScriptNotesInReport(url: string, marker: string, obs: Observation, part: Part, i: nat)
    requires Searched(obs)
    ensures var r := BuildReport(url, marker, obs);
            var sec := SectionOf(obs, part);
            && (ScriptContentMatch(part, i) in r.details <==>
                  sec.Some? && i < |sec.value.scripts| && Contains(sec.value.scripts[i].content, marker))
            && (ScriptSrcMatch(part, i) in r.details <==>
                  sec.Some? && i < |sec.value.scripts|
                  && !Contains(sec.value.scripts[i].content, marker)
                  && Contains(SrcText(sec.value.scripts[i]), marker))
  {
    SearchedReport(url, marker, obs);
    LayoutScriptNotes(url, marker, obs, part, i);
  }

  /** The truncation note of a part is in the layout exactly when the part
      contains the marker and five or more of its lines do. */
  lemma {:induction false} LayoutTruncationNote(url: string, marker: string, obs: Observation, part: Part)
    requires obs.Loaded?
    ensures var sec := SectionOf(obs, part);
            PartSamplesTruncated(part) in Layout(url, marker, obs) <==>
              sec.Some? && Contains(sec.value.html, marker)
              && |FindLineNumbers(sec.value.html, marker)| >= SampleCap
  {
    var sec := SectionOf(obs, part);
    var note := PartSamplesTruncated(part);
    var mine := PartEvidence(part, sec, marker);
    if note in Layout(url, marker, obs) {
      LayoutKinds(url, marker, obs, note);
    }
    if note in mine {
      PartInLayout(url, marker, obs, part, note);
    }
    if sec.Some? {
      var s := sec.value;
      PartSamplesSpec(part, s.html, marker);
      ScriptNotesShape(part, s.scripts, marker, 0);
      var notes := ScriptNotes(part, s.scripts, marker, 0);
      assert note !in notes by {
        forall k | 0 <= k < |notes| ensures notes[k] != note {
          assert IsScriptNote(notes[k], part, 0);
        }
      }
      assert mine == (if Contains(s.html, marker) then [MarkerIn(part)] + PartSamples(part, s.html, marker) else []) + notes;
    }
  }

  /** On the searched path, the note that a part's samples are only partly
      shown is in `details` exactly when the part contains the marker and five
      or more of its lines do. */
  lemma {:induction false} TruncationNoteInReport(url: string, marker: string, obs: Observation, part: Part)
    requires Searched(obs)
    ensures var r := BuildReport(url, marker, obs);
            var sec := SectionOf(obs, part);
            PartSamplesTruncated(part) in r.details <==>
              sec.Some? && Contains(sec.value.html, marker)
              && |FindLineNumbers(sec.value.html, marker)| >= SampleCap
  {
    SearchedReport(url, marker, obs);
    LayoutTruncationNote(url, marker, obs, part);
  }

  /** On the searched path, `details` says the view source was unavailable
      exactly when the fetch failed or returned an empty page. */
  lemma {:induction false} ViewSourceNoteInReport(url: string, marker: string, obs: Observation)
    requires Searched(obs)
    ensures ViewSourceUnavailable in BuildReport(url, marker, obs).details <==> !ViewSourceUsable(obs.viewSource)
  {
    SearchedReport(url, marker, obs);
    LayoutViewSourceNote(url, marker, obs);
  }

  /** The layout says the view source was unavailable exactly when it was. */
  lemma {:induction false} LayoutViewSourceNote(url: string, marker: string, obs: Observation)
    requires obs.Loaded?
    ensures ViewSourceUnavailable in Layout(url, marker, obs) <==> !ViewSourceUsable(obs.viewSource)
  {
    var note := ViewSourceUnavailable;
    if note in Layout(url, marker, obs) {
      LayoutKinds(url, marker, obs, note);
    }
  }

  /** A not-found report carries no flag and no document line number. */
  lemma NotFoundReport(url: string, marker: string, obs: Observation)
    ensures var r := BuildReport(url, marker, obs);
            r.status == NotFound ==> !r.inHead && !r.inBody && !r.inHtml && r.lineNumbers == []
  {
  }

  /** The head and body HTML the browser reports are pieces of the page source it reports. */
  predicate Coherent(obs: Observation) {
    && obs.Loaded?
    && (obs.head.Some? ==> Contains(obs.pageSource, obs.head.value.html))
    && (obs.body.Some? ==> Contains(obs.pageSource, obs.body.value.html))
  }

  /** For a coherent page the document-wide search covers both section
      searches: a marker in the head or the body is a marker in the document. */
  lemma {:induction false} SectionsImplyDocument(url: string, marker: string, obs: Observation)
    requires Searched(obs) && Coherent(obs)
    ensures var r := BuildReport(url, marker, obs);
            r.inHead || r.inBody ==> r.inHtml
  {
    SearchedReport(url, marker, obs);
    if obs.head.Some? && Contains(obs.head.value.html, marker) {
      ContainsTransitive(obs.pageSource, obs.head.value.html, marker);
    }
    if obs.body.Some? && Contains(obs.body.value.html, marker) {
      ContainsTransitive(obs.pageSource, obs.body.value.html, marker);
    }
  }
}
