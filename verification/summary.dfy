/**
 The tables and counts the checker builds from its reports once every URL is
 done: the summary row of each report, the status texts, the counts printed
 by status mark, and the head-only, body-only and both counts.
 */
module Summary {
  import opened Wrappers
  import opened Text
  import opened Decimal
  import opened Scan
  import opened ScanProperties

  // ---------------------------------------------------------------------------
  // Status texts
  // ---------------------------------------------------------------------------

  const FoundMark: char := '✅'        // the check mark that opens a found status
  const NotFoundMark: char := '❌'     // the cross that opens the not-found status
  const WarningMark: string := "⚠️"  // the warning sign (with its emoji selector)

  /** `", ".join(locations)` for the sections holding the marker, HEAD first. */
  function Locations(head: bool, body: bool): string {
    if head && body then "HEAD, BODY"
    else if head then "HEAD"
    else if body then "BODY"
    else ""
  }

  /** The mark a status text opens with: ✅ for the found statuses, ❌ for
      not found, ⚠️ for the rest except the initial unchecked status. */
  function Lead(s: Status): string {
    match s
    case Unchecked => ""
    case Found(_, _) => [FoundMark]
    case FoundElsewhere => [FoundMark]
    case NotFound => [NotFoundMark]
    case _ => WarningMark
  }

  /** The words after the mark. */
  function Phrase(s: Status): string {
    match s
    case Unchecked => "未チェック"
    case Found(head, body) => " テキストが見つかりました (" + Locations(head, body) + ")"
    case FoundElsewhere => " テキストが見つかりました (その他の場所)"
    case NotFound => " テキストが見つかりません"
    case Redirect => " リダイレクト"
    case Http404 => " 404エラー"
    case Timeout => " タイムアウトエラー"
    case Error(m) => " エラー: " + m
    case BrowserInitError(m) => " ブラウザ初期化エラー: " + m
  }

  /** The status text the report carries. */
  function StatusText(s: Status): string {
    Lead(s) + Phrase(s)
  }

  /** Does the status carry a free-form message? */
  predicate HasMessage(s: Status) {
    s.Error? || s.BrowserInitError?
  }

  /** The code points the summary counts look for. */
  predicate IsMark(c: char) {
    c == FoundMark || c == NotFoundMark || c == WarningMark[0]
  }

  lemma FoundPhraseMarks(head: bool, body: bool, c: char)
    requires IsMark(c)
    ensures c !in Phrase(Found(head, body))
  {
    assert c !in Locations(head, body);
    assert c !in " テキストが見つかりました (";
  }

  lemma VerdictPhraseMarks(c: char)
    requires IsMark(c)
    ensures c !in Phrase(Unchecked) && c !in Phrase(FoundElsewhere) && c !in Phrase(NotFound)
  {
  }

  lemma FailurePhraseMarks(c: char)
    requires IsMark(c)
    ensures c !in Phrase(Redirect) && c !in Phrase(Http404) && c !in Phrase(Timeout)
  {
  }

  lemma MessagePhraseMarks(s: Status, c: char)
    requires HasMessage(s) && IsMark(c)
    ensures c in Phrase(s) <==> c in s.message
  {
    if s.Error? {
      assert Phrase(s) == " エラー: " + s.message;
      assert c !in " エラー: ";
    } else {
      assert Phrase(s) == " ブラウザ初期化エラー: " + s.message;
      assert c !in " ブラウザ初期化エラー: ";
    }
  }

  /** The words after the mark hold a mark only when a failure message does. */
  lemma PhraseMarks(s: Status, c: char)
    requires IsMark(c)
    ensures c in Phrase(s) <==> HasMessage(s) && c in s.message
  {
    if HasMessage(s) {
      MessagePhraseMarks(s, c);
    } else if s.Found? {
      FoundPhraseMarks(s.head, s.body, c);
    } else {
      VerdictPhraseMarks(c);
      FailurePhraseMarks(c);
    }
  }

  /** A mark is in a status text exactly when it is the opening mark or a
      failure message holds it. */
  lemma {:induction false} MarkInText(s: Status, c: char)
    requires IsMark(c)
    ensures Contains(StatusText(s), [c]) <==> c in Lead(s) || (HasMessage(s) && c in s.message)
  {
    ContainsCodePointMarker(StatusText(s), c);
    PhraseMarks(s, c);
    assert c in StatusText(s) <==> c in Lead(s) || c in Phrase(s);
  }

  /** The check mark is in a status text exactly for the found statuses, or
      when a failure message happens to contain it. */
  lemma {:induction false} FoundMarkText(s: Status)
    ensures Contains(StatusText(s), [FoundMark]) <==>
              s.Found? || s == FoundElsewhere || (HasMessage(s) && FoundMark in s.message)
  {
    MarkInText(s, FoundMark);
  }

  /** The cross is in a status text exactly for NotFound, or when a failure
      message happens to contain it. */
  lemma {:induction false} NotFoundMarkText(s: Status)
    ensures Contains(StatusText(s), [NotFoundMark]) <==>
              s == NotFound || (HasMessage(s) && NotFoundMark in s.message)
  {
    MarkInText(s, NotFoundMark);
  }

  /** The warning sign is in a status text exactly for the redirect, 404,
      timeout and failure statuses. */
  lemma {:induction false} WarningMarkText(s: Status)
    ensures Contains(StatusText(s), WarningMark) <==>
              s == Redirect || s == Http404 || s == Timeout || HasMessage(s)
  {
    var t := StatusText(s);
    if s == Redirect || s == Http404 || s == Timeout || HasMessage(s) {
      assert t == WarningMark + Phrase(s);
      PrefixContains(t, WarningMark);
    } else {
      ContainsCodePoint(t, WarningMark, WarningMark[0]);
      PhraseMarks(s, WarningMark[0]);
      assert WarningMark[0] !in Lead(s);
    }
  }

  // ---------------------------------------------------------------------------
  // Summary rows
  // ---------------------------------------------------------------------------

  const Yes := "あり"
  const No := "なし"

  /** The yes/no cell of a flag. */
  function YesNo(b: bool): string {
    if b then Yes else No
  }

  /** A line-number cell: the numbers joined with ", ", or "" when there are none. */
  function NumbersCell(ns: seq<nat>): string {
    if ns != [] then JoinNumbers(ns) else ""
  }

  /** One row of the summary table. */
  datatype SummaryRow = SummaryRow(
    url: string,
    status: string,
    inHead: string,
    inBody: string,
    lineNumbers: string,
    lineNumbersViewSource: string)

  function RowOf(r: Report): SummaryRow {
    SummaryRow(r.url, StatusText(r.status), YesNo(r.inHead), YesNo(r.inBody),
               NumbersCell(r.lineNumbers), NumbersCell(r.lineNumbersViewSource))
  }

  /** The summary table: one row per report, in the order the reports arrived. */
  function SummaryTable(rs: seq<Report>): (t: seq<SummaryRow>)
    ensures |t| == |rs|
    ensures forall i :: 0 <= i < |rs| ==> t[i].url == rs[i].url
  {
    seq(|rs|, i requires 0 <= i < |rs| => RowOf(rs[i]))
  }

  /** A summary row loses nothing the report's flags and line numbers say:
      the yes/no cells give the flags back and the line-number cells parse
      back to the report's line numbers. */
  lemma {:induction false} RowRoundTrip(r: Report)
    ensures var row := RowOf(r);
            && row.url == r.url
            && (row.inHead == Yes <==> r.inHead) && (row.inHead == No <==> !r.inHead)
            && (row.inBody == Yes <==> r.inBody) && (row.inBody == No <==> !r.inBody)
            && ParseNumbers(row.lineNumbers) == Some(r.lineNumbers)
            && ParseNumbers(row.lineNumbersViewSource) == Some(r.lineNumbersViewSource)
            && (row.lineNumbers == "" <==> r.lineNumbers == [])
  {
    JoinNumbersRoundTrip(r.lineNumbers);
    JoinNumbersRoundTrip(r.lineNumbersViewSource);
  }

  // ---------------------------------------------------------------------------
  // Counts
  // ---------------------------------------------------------------------------

  /** The three head/body overlap classes that are counted. */
  datatype Overlap = HeadOnly | BodyOnly | Both

  predicate InOverlap(r: Report, o: Overlap) {
    match o
    case HeadOnly => r.inHead && !r.inBody
    case BodyOnly => !r.inHead && r.inBody
    case Both => r.inHead && r.inBody
  }

  /** `sum([1 for r in results if ...])` for one overlap class. */
  function CountOverlap(rs: seq<Report>, o: Overlap): nat {
    if rs == [] then 0 else (if InOverlap(rs[0], o) then 1 else 0) + CountOverlap(rs[1..], o)
  }

  /** The number of reports with the marker in the head or the body. */
  function CountDetected(rs: seq<Report>): nat {
    if rs == [] then 0 else (if rs[0].inHead || rs[0].inBody then 1 else 0) + CountDetected(rs[1..])
  }

  /** The number of reports whose status is Found. */
  function CountFound(rs: seq<Report>): nat {
    if rs == [] then 0 else (if rs[0].status.Found? then 1 else 0) + CountFound(rs[1..])
  }

  /** No report is in two overlap classes. */
  lemma OverlapsDisjoint(r: Report, o1: Overlap, o2: Overlap)
    requires o1 != o2
    ensures !(InOverlap(r, o1) && InOverlap(r, o2))
  {
  }

  /** The three counts add up to the reports with the marker in the head or
      the body, which is no more than all reports. */
  lemma {:induction false} OverlapsPartition(rs: seq<Report>)
    ensures CountOverlap(rs, HeadOnly) + CountOverlap(rs, BodyOnly) + CountOverlap(rs, Both) == CountDetected(rs)
    ensures CountDetected(rs) <= |rs|
  {
    if rs != [] {
      OverlapsPartition(rs[1..]);
    }
  }

  /** The status of a report agrees with its flags: Found exactly when the
      head or the body holds the marker. */
  predicate Agrees(r: Report) {
    r.status.Found? <==> r.inHead || r.inBody
  }

  /** Every report the scan builds agrees with its flags. */
  lemma {:induction false} BuiltReportsAgree(url: string, marker: string, obs: Observation)
    ensures Agrees(BuildReport(url, marker, obs))
  {
  }

  /** Over reports that agree with their flags, the head/body counts add up to
      the number of Found statuses. */
  lemma {:induction false} OverlapsCountFound(rs: seq<Report>)
    requires forall i :: 0 <= i < |rs| ==> Agrees(rs[i])
    ensures CountOverlap(rs, HeadOnly) + CountOverlap(rs, BodyOnly) + CountOverlap(rs, Both) == CountFound(rs)
  {
    OverlapsPartition(rs);
    DetectedIsFound(rs);
  }

  lemma {:induction false} DetectedIsFound(rs: seq<Report>)
    requires forall i :: 0 <= i < |rs| ==> Agrees(rs[i])
    ensures CountDetected(rs) == CountFound(rs)
  {
    if rs != [] {
      assert Agrees(rs[0]);
      DetectedIsFound(rs[1..]);
    }
  }

  lemma {:induction false} CountOverlapAppend(a: seq<Report>, b: seq<Report>, o: Overlap)
    ensures CountOverlap(a + b, o) == CountOverlap(a, o) + CountOverlap(b, o)
  {
    if a == [] {
      assert a + b == b;
    } else {
      assert (a + b)[1..] == a[1..] + b;
      CountOverlapAppend(a[1..], b, o);
    }
  }

  /** Taking one report out of a list removes exactly its own contribution. */
  lemma {:induction false} CountOverlapRemove(b: seq<Report>, j: nat, o: Overlap)
    requires j < |b|
    ensures CountOverlap(b, o) == (if InOverlap(b[j], o) then 1 else 0) + CountOverlap(b[..j] + b[j + 1..], o)
  {
    assert b == (b[..j] + [b[j]]) + b[j + 1..];
    CountOverlapAppend(b[..j] + [b[j]], b[j + 1..], o);
    CountOverlapAppend(b[..j], [b[j]], o);
    CountOverlapAppend(b[..j], b[j + 1..], o);
    assert [b[j]][1..] == [];
  }

  /** Removing the element at j from b leaves the multiset minus that element. */
  lemma MultisetRemove(b: seq<Report>, j: nat)
    requires j < |b|
    ensures multiset(b[..j] + b[j + 1..]) == multiset(b) - multiset{b[j]}
  {
    assert b == b[..j] + [b[j]] + b[j + 1..];
  }

  /** Two arrangements of the same reports stay arrangements of the same
      reports once the first report of one is taken out of both. */
  lemma MatchFirst(a: seq<Report>, b: seq<Report>, j: nat)
    requires a != [] && multiset(a) == multiset(b)
    requires j < |b| && b[j] == a[0]
    ensures multiset(a[1..]) == multiset(b[..j] + b[j + 1..])
  {
    MultisetRemove(b, j);
    assert a == [a[0]] + a[1..];
  }

  /** The counts do not depend on the order in which the reports completed:
      any arrangement of the same reports gives the same counts. */
  lemma {:induction false} OverlapCountOrderFree(a: seq<Report>, b: seq<Report>, o: Overlap)
    requires multiset(a) == multiset(b)
    ensures CountOverlap(a, o) == CountOverlap(b, o)
    decreases |a|
  {
    if a == [] {
      assert |b| == |multiset(b)| == 0;
    } else {
      assert a[0] in multiset(b);
      var j :| 0 <= j < |b| && b[j] == a[0];
      MatchFirst(a, b, j);
      OverlapCountOrderFree(a[1..], b[..j] + b[j + 1..], o);
      CountOverlapRemove(b, j, o);
    }
  }

  /** `Status.str.contains(mark).sum()` over the summary rows. */
  function CountStatusMark(rows: seq<SummaryRow>, mark: string): nat {
    if rows == [] then 0
    else (if Contains(rows[0].status, mark) then 1 else 0) + CountStatusMark(rows[1..], mark)
  }

  /** A status whose message, if any, holds none of the three marks. */
  predicate PlainStatus(s: Status) {
    s != Unchecked &&
    (HasMessage(s) ==> FoundMark !in s.message && NotFoundMark !in s.message)
  }

  /** A plain status text carries exactly one of the three marks. */
  lemma {:induction false} OneMark(s: Status)
    requires PlainStatus(s)
    ensures (if Contains(StatusText(s), [FoundMark]) then 1 else 0)
          + (if Contains(StatusText(s), [NotFoundMark]) then 1 else 0)
          + (if Contains(StatusText(s), WarningMark) then 1 else 0) == 1
  {
    FoundMarkText(s);
    NotFoundMarkText(s);
    WarningMarkText(s);
  }

  /** When every status is plain, the detected, not-found and error counts
      printed from the summary table add up to the number of reports. */
  lemma {:induction false} MarkCountsCover(rs: seq<Report>)
    requires forall i :: 0 <= i < |rs| ==> PlainStatus(rs[i].status)
    ensures var t := SummaryTable(rs);
            CountStatusMark(t, [FoundMark]) + CountStatusMark(t, [NotFoundMark])
              + CountStatusMark(t, WarningMark) == |rs|
  {
    if rs != [] {
      var t := SummaryTable(rs);
      TableStep(rs);
      assert PlainStatus(rs[0].status);
      OneMark(rs[0].status);
      MarkCountsCover(rs[1..]);
    }
  }

  /** The table of a non-empty list: the first report's row, then the rest's. */
  lemma TableStep(rs: seq<Report>)
    requires rs != []
    ensures SummaryTable(rs)[0] == RowOf(rs[0]) && SummaryTable(rs)[1..] == SummaryTable(rs[1..])
  {
    assert SummaryTable(rs)[1..] == SummaryTable(rs[1..]);
  }
}
