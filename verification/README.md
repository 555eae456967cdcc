# Tag-presence checker: a Dafny model

`check_tag.py` loads each URL of a list in a headless browser and looks for a
marker text (typically a tracking-tag snippet) in five places:
- the `<head>` element;
- the `<body>` element;
- the `<script>` elements of each;
- the whole rendered document;
- a separately fetched "view-source" copy of the page.

For every URL it writes a report. The report holds:
- a status;
- three presence flags (head, body, document);
- the matching line numbers of the document and of the view-source text;
- a list of detail lines that explain the verdict.

After every URL is done, it prints a summary table and some counts.

This project models that core as pure functions and proves what the reports
mean:

- **Text** (`text.dfy`) covers three Python string operations:
  - the substring test `marker in text`, as `Contains`, proved equal to
    "occurs at some offset";
  - `str.strip()`, as `Strip`, over the `str.isspace` code points;
  - `str.splitlines()`, as `Lines`. Its boundaries are `\n`, `\r`, `\r\n`,
    `\v`, `\f`, `\x1c`, `\x1d`, `\x1e`, `\x85`, U+2028 and U+2029. A final
    line break does not produce an empty last line.
- **Decimal** (`decimal.dfy`) renders a list of line numbers as
  `", ".join(map(str, ns))`. It also has the parser that reads such a list
  back.
- **LineIndex** (`line_index.dfy`) has `find_line_numbers` and
  `find_line_matches`. The latter keeps the source's edge cases:
  - a cap of zero or below still returns the first match;
  - every listed line is stripped.
- **Scan** (`scan.dfy`) is `check_tag_presence` for one URL. Everything the
  browser and the network answer is one `Observation` value, which is one of:
  - the browser could not start;
  - navigation timed out;
  - navigation raised an error;
  - the page loaded, with its final URL, HTTP status, head and body (HTML and
    scripts), document source, and the view-source fetch result.

  Each detail line is a constructor of `Evidence` instead of a formatted
  Japanese sentence.
- **ScanProperties** (`scan_properties.dfy`) proves what the report says
  about its observation. This covers:
  - the flags;
  - the line numbers;
  - the order and content of the detail lines;
  - the script notes;
  - the truncation notes;
  - the view-source note;
  - the final verdict.
- **Summary** (`summary.dfy`) builds the summary row of each report, the
  exact status texts, the counts by status mark, and the head-only,
  body-only and both counts.

Two observations about the source follow from the proofs:

- **The document-wide fallback never adds anything.** This is the listing of
  `find_line_matches(page_source, …)` that runs when
  `find_line_numbers(page_source, …)` is empty. Both functions apply the
  same per-line test to the same lines, so the fallback never has anything
  to list. `ScanProperties.NoDocumentSamples` proves that no report ever
  holds a document sample line. The branch is meant as a best-effort hint
  for a marker that line splitting misses, such as one containing a line
  break. That is exactly the case where it finds nothing. The model keeps
  the branch as written.
- **The counts by status mark are only exact in one case.** The "detected",
  "not found" and "error" counts are substring counts over the status
  column. They add up to the number of reports exactly when no failure
  message itself contains ✅ or ❌. `Summary.FoundMarkText` shows that a
  browser error whose message contains ✅ is counted as a detection.
  `Summary.MarkCountsCover` proves the sum under that condition.

A "head or body implies document" property holds only when the browser's
head and body HTML are substrings of its document source. The browser does
not guarantee this, so `ScanProperties.SectionsImplyDocument` assumes it as
`Coherent`. The code computes the three flags independently and never
enforces the implication. A report with the head flag and without the
document flag is therefore possible, and the model allows it as the code
does.

## Model

| member | source | states |
|---|---|---|
| Text.ContainsIffOccurs | check_tag.py:47 | Python's `marker in text` holds exactly when the marker occurs at some offset of the text |
| Text.StripSpec | check_tag.py:56 | the stripped line starts and ends with a non-whitespace code point and is a contiguous piece of the line from which only whitespace was removed at either end |
| Text.StripIdempotent | check_tag.py:56 | stripping a stripped line changes nothing |
| Text.LinesKeepText | check_tag.py:46 | the lines of a text, concatenated, are the text with its line breaks removed, so splitting loses no other character |
| Text.LinesHaveNoBreaks | check_tag.py:46 | no line contains a line-break code point |
| Text.LineInText | check_tag.py:46 | every line is a piece of the original text |
| Text.LinesOfClean | check_tag.py:46 | a text without line breaks is a single line, and the empty text has no line |
| Text.LinesCrLf | check_tag.py:46 | `\r\n` is one boundary: the line before it ends there and splitting continues after the `\n`, with no empty line between the two code points |
| Text.LinesSingleBreak | check_tag.py:46 | every other boundary code point ends the line before it and counts once |
| Text.LinesFinalBreak | check_tag.py:46 | a boundary at the end of the text adds no empty last line |
| Text.LinesLfCrExample | check_tag.py:46 | `"a\n\rb"` splits into `"a"`, `""` and `"b"`, because `\n\r` is two boundaries |
| Decimal.NatToStringRoundTrip | check_tag.py:161 | the decimal rendering of a line number reads back as that number |
| Decimal.JoinNumbersRoundTrip | check_tag.py:161 | the `", "`-joined list of line numbers parses back to the same list, so the joined text loses nothing |
| LineIndex.FindLineNumbersSpec | check_tag.py:43-49 | the result holds exactly the 1-based numbers of the lines containing the marker (sound and complete), strictly increasing and no more than the number of lines; it is empty exactly when no line contains the marker |
| LineIndex.FindLineMatchesSpec | check_tag.py:51-59 | the result is the first min(k, max(cap, 1)) of the matching line numbers, k being their count, each paired with its stripped line, in order; a cap of zero or below still yields the first match, and a cap at least k yields all of them |
| LineIndex.NoContainsNoLines | check_tag.py:43-59 | a text that does not contain the marker has no matching line numbers and no matches for any cap |
| Scan.PartSamplesSpec | check_tag.py:114-119 | a part's sample lines are its first at most five matches, numbered and stripped, in order; the "only partly shown" note follows exactly when five lines were listed, which is exactly when five or more lines match |
| Scan.ScriptNote | check_tag.py:123-129 | a script yields a content note exactly when its content holds the marker, a src note exactly when only its src (missing src read as "") does, and nothing otherwise |
| Scan.ScriptNotesOrdered | check_tag.py:123-129 | the script notes of a part come in script order, as the `enumerate` loop visits the scripts |
| Scan.ScriptNotesAt | check_tag.py:121-153 | script `i` of a part has its content note among the part's script notes exactly when its content holds the marker, and its src note exactly when only its src does |
| Scan.BuildReport | check_tag.py:74-203 | the report keeps its URL; a launch failure, a navigation timeout or a navigation error gives that status with blank flags, numbers and details; a 404 gives the 404 status, blank flags and numbers, and only the redirect line; the tentative Redirect status and the initial unchecked status never survive |
| ScanProperties.SearchedReport | check_tag.py:107-178 | after a load that is not a 404, the head flag holds exactly when there is a head whose HTML contains the marker, likewise for the body and the document; the document line numbers are those of the page source when it holds the marker and none otherwise, and the view-source line numbers are those of a non-empty view source holding the marker and none otherwise; what the details contain is stated by the three membership rows below |
| ScanProperties.FinalStatus | check_tag.py:180-191 | the verdict is found in HEAD and/or BODY (HEAD listed first) when either flag holds, found elsewhere when only the document holds the marker, not found otherwise |
| ScanProperties.LineNumbersOfPageSource | check_tag.py:155-162 | the document line numbers equal those of the whole page source in every case, whether or not the `in` guard let the search run |
| ScanProperties.NoDocumentSamples | check_tag.py:155-167 | no report ever holds a document sample line: the fallback listing can never produce one |
| ScanProperties.ScriptNotesInReport | check_tag.py:121-153 | in a searched report, script `i` of the head (or body) has a content note exactly when its content holds the marker and a src note exactly when only its src does, so never both, and none for a script that does not exist |
| ScanProperties.TruncationNoteInReport | check_tag.py:114-119 | in a searched report, a part's "only partly shown" note is present exactly when the part holds the marker and five or more of its lines do |
| ScanProperties.ViewSourceNoteInReport | check_tag.py:169-178 | in a searched report, the "view source unavailable" note is present exactly when the fetch failed or returned an empty text |
| ScanProperties.NotFoundReport | check_tag.py:180-191 | a not-found report has no head, body or document flag and no document line numbers |
| ScanProperties.SectionsImplyDocument | check_tag.py:107-158 | when the head and body HTML are pieces of the document source, a marker in the head or body sets the document flag too |
| Summary.FoundMarkText | check_tag.py:187-189 | a status text contains ✅ exactly for the found statuses, or for a failure whose message contains ✅ |
| Summary.NotFoundMarkText | check_tag.py:191 | a status text contains ❌ exactly for the not-found status, or for a failure whose message contains ❌ |
| Summary.WarningMarkText | check_tag.py:99-201 | a status text contains ⚠️ exactly for the redirect, 404, timeout, navigation-error and browser-error statuses |
| Summary.RowRoundTrip | check_tag.py:234-241 | a summary row keeps the report's URL, its yes/no cells give the flags back, and its line-number cells parse back to the report's line numbers, being empty exactly when there are none |
| Summary.OverlapsPartition | check_tag.py:266-268 | the head-only, body-only and both counts add up to the number of reports with the marker in the head or the body, which is at most the number of reports |
| Summary.BuiltReportsAgree | check_tag.py:181-191 | every report the scan builds has a found status exactly when its head or body flag is set |
| Summary.OverlapsCountFound | check_tag.py:266-268 | over reports whose status agrees with their flags, the three counts add up to the number of found statuses |
| Summary.OverlapCountOrderFree | check_tag.py:226-230 | the counts are the same for every order in which the reports complete |
| Summary.MarkCountsCover | check_tag.py:259-263 | when every report is checked and no failure message contains ✅ or ❌, the detected, not-found and error counts printed from the summary table add up to the number of reports |

## Left out

- The search-text prompt and its configuration file (`get_search_text`) are left out. They are interactive I/O; the marker is a parameter.
- Reading `urls.csv` and the empty-list exit are left out. The model starts from the reports.
- The Playwright session is left out: launching, navigating, waiting 1.5 seconds, querying elements and closing. Its outcomes are the `Observation` datatype.
- The `urllib` request behind `fetch_view_source` is left out. Its result is the `viewSource` field. A failed request is `None`, and an empty page is treated like a failure, as `if view_source_html:` does.
- An exception raised after the page has loaded (while reading the head, the body or the document) is not modelled. The model covers exceptions from launching and from navigation; a later one would keep the partial details with an error status.
- A Playwright timeout raised after the page has loaded is not modelled. It would give the timeout status to a report that already has flags and details (check_tag.py:192-193).
- An exception from closing the page, context or browser is not modelled (check_tag.py:196-199). It reaches the outer handler, which replaces even a finished report's status with the browser-initialisation error and keeps its flags and details (check_tag.py:200-201). So in the program a browser-initialisation error report is not always blank.
- Summary.BuiltReportsAgree: holds on the modelled paths only. The teardown exception above can leave set flags under an error status.
- The thread pool, `as_completed` and the progress lines are left out. Only their effect, an arbitrary completion order, is modelled (`Summary.OverlapCountOrderFree`).
- The detail lines are not rendered as their Japanese sentences. Each is an `Evidence` constructor carrying the same data: part, line number, stripped text, script index, number list or redirect target.
- The CSV files are left out: writing `tag_check_results.csv` and `tag_check_details.csv`, and the detail table's joining of details with newlines. The optional `ace_tools` display is left out too.
- The "view source" text is not decoded from bytes. The model receives it as text; UTF-8 decoding with replacement characters is not modelled.
