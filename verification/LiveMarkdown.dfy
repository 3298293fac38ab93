// packages/drift/src/live-validator.ts, redactReport and
// renderLiveValidationMarkdown: the report as text, and reading it back.
module LiveMarkdown {
  import opened Wrappers
  import opened Text
  import opened Sorting
  import opened LiveValidator
  import opened MarkdownEscape
  import opened LivePool
  import opened LiveOrder

  // ----- redaction before rendering

  /** A finding checked and redacted once more; its time is kept, or left empty. */
  function Cleaned(f: Finding): Finding { Normalize(f, "") }

  /** Redaction of a report that was made by a run changes nothing. */
  lemma ReportIsClean(adapters: seq<Adapter>, pageCap: nat, workers: nat, findings: seq<Finding>)
    requires workers > 0 && CanReport(adapters, pageCap, workers, findings)
    ensures AllAccepted(findings) && forall f | f in findings :: Cleaned(f) == f
  {
    hide AllValid, InOrder, Collected, Sort, FindingLe;
    var done := ReportedOrder(adapters, pageCap, workers, findings);
    var raw := Collected(adapters, pageCap, done);
    var out: seq<Finding> :| Reports(raw, out, findings);
    var nows := OrderDoesNotMatter(adapters, pageCap, done);
    ValidIff(adapters, pageCap, nows, raw);
    SortMembers(out, FindingLe);
    forall f | f in findings ensures IsValid(f) && Cleaned(f) == f {
      var i :| 0 <= i < |out| && out[i] == f;
      assert IsNormalized(raw[i], out[i]) && IsValid(raw[i]);
      RedactionIsIdempotent(raw[i].evidence, 0, "");
    }
  }

  // ----- rendering

  function FindingCells(f: Finding): seq<string> { [f.provider, f.id, f.severity, f.status, f.resource, f.message] }

  function SummaryLine(s: Summary): string {
    "| " + Decimal(s.total) + " | " + Decimal(s.pass) + " | " + Decimal(s.fail) + " | " + Decimal(s.degraded) + " | "
    + Decimal(s.skipped) + " |"
  }

  const TITLE := "# Hulumi Live Validation Report"
  const SUMMARY_HEADER := "| Total | Pass | Fail | Degraded | Skipped |"
  const SUMMARY_RULE := "|---:|---:|---:|---:|---:|"
  const TABLE_HEADER := "| Provider | ID | Severity " + "| Status | Resource | Message |"
  const TABLE_RULE := "|---|---|---|---|---|---|"

  function Heading(generatedAt: string, summary: Summary): (lines: seq<string>)
    ensures |lines| == 10
  {
    [TITLE, "", "Generated: " + EscapeMarkdownCell(generatedAt), "",
     SUMMARY_HEADER, SUMMARY_RULE, SummaryLine(summary), "", TABLE_HEADER, TABLE_RULE]
  }

  function Table(findings: seq<Finding>): seq<seq<string>> {
    seq(|findings|, i requires 0 <= i < |findings| => FindingCells(findings[i]))
  }

  function Lines(generatedAt: string, report: Report): seq<string> {
    Heading(generatedAt, report.summary) + Rows(Table(report.findings))
  }

  /** `renderLiveValidationMarkdown`; `None` when a finding is refused. */
  method RenderMarkdown(generatedAt: string, report: Report) returns (text: Option<string>)
    ensures text.Some? <==> AllAccepted(report.findings)
    ensures text.Some? ==> text.value == Join(Lines(generatedAt, report), '\n') + "\n"
  {
    hide Row, EscapeMarkdownCell, Heading;
    var clean: seq<Finding> := [];
    for i := 0 to |report.findings|
      invariant |clean| == i
                && forall j | 0 <= j < i :: IsValid(report.findings[j]) && clean[j] == Cleaned(report.findings[j])
    {
      if !IsValid(report.findings[i]) {
        return None;
      }
      clean := clean + [Cleaned(report.findings[i])];
    }
    var lines := Heading(generatedAt, report.summary);
    ghost var rows := Rows(Table(report.findings));
    for i := 0 to |clean|
      invariant lines == Heading(generatedAt, report.summary) + rows[..i]
    {
      lines := lines + [Row(FindingCells(clean[i]))];
      assert FindingCells(clean[i]) == FindingCells(report.findings[i]);
      assert rows[..i + 1] == rows[..i] + [rows[i]];
    }
    assert rows[..|rows|] == rows;
    text := Some(Join(lines, '\n') + "\n");
  }

  // ----- the lines

  lemma DigitsHaveNoLineFeed(n: nat)
    ensures '\n' !in Decimal(n)
  {
  }

  lemma SummaryLineIsOneLine(s: Summary)
    ensures '\n' !in SummaryLine(s)
  {
    DigitsHaveNoLineFeed(s.total);
    DigitsHaveNoLineFeed(s.pass);
    DigitsHaveNoLineFeed(s.fail);
    DigitsHaveNoLineFeed(s.degraded);
    DigitsHaveNoLineFeed(s.skipped);
    hide Decimal;
  }

  lemma FixedLines()
    ensures '\n' !in TITLE && '\n' !in SUMMARY_RULE && '\n' !in TABLE_RULE
  {
  }

  lemma HeaderLines()
    ensures '\n' !in SUMMARY_HEADER && '\n' !in TABLE_HEADER
  {
    assert '\n' !in "| Provider | ID | Severity ";
    assert '\n' !in "| Status | Resource | Message |";
  }

  lemma GeneratedLine(generatedAt: string)
    ensures '\n' !in "Generated: " + EscapeMarkdownCell(generatedAt)
  {
    CellHasNoLineFeed(generatedAt);
    hide EscapeMarkdownCell;
  }

  lemma HeadingLines(generatedAt: string, summary: Summary)
    ensures forall i | 0 <= i < 10 :: '\n' !in Heading(generatedAt, summary)[i]
  {
    SummaryLineIsOneLine(summary);
    GeneratedLine(generatedAt);
    FixedLines();
    HeaderLines();
    hide SummaryLine, EscapeMarkdownCell;
  }

  lemma NoLineFeed(generatedAt: string, report: Report)
    ensures forall i | 0 <= i < |Lines(generatedAt, report)| :: '\n' !in Lines(generatedAt, report)[i]
  {
    HeadingLines(generatedAt, report.summary);
    hide Heading;
    forall i | 0 <= i < |report.findings| ensures '\n' !in Row(FindingCells(report.findings[i])) {
      RowIsOneRow(FindingCells(report.findings[i]));
    }
    hide Row, FindingCells;
  }

  lemma {:induction false} SplitEndsLine(s: string, sep: char)
    ensures Split(s + [sep], sep) == Split(s, sep) + [""]
  {
    if s == "" {
      assert Split([sep], sep) == [""] + Split("", sep) by {
        assert [sep][1..] == "";
      }
      assert "" + [sep] == [sep];
    } else {
      SplitEndsLine(s[1..], sep);
      assert (s + [sep])[1..] == s[1..] + [sep];
    }
  }

  /** The text is cut by its line feeds into ten lines of heading, one line for each finding, and an empty end. */
  lemma ReportLines(generatedAt: string, report: Report)
    ensures Split(Join(Lines(generatedAt, report), '\n') + "\n", '\n') == Lines(generatedAt, report) + [""]
    ensures |Lines(generatedAt, report)| == 10 + |report.findings|
  {
    NoLineFeed(generatedAt, report);
    hide Heading, Row;
    SplitJoin(Lines(generatedAt, report), '\n');
    SplitEndsLine(Join(Lines(generatedAt, report), '\n'), '\n');
  }

  // ----- reading the report back

  /** The text of a padded cell. */
  function Unpad(cell: string): string { if |cell| < 2 then "" else Decode(cell[1..|cell| - 1]) }

  function UnpadAll(cells: seq<string>): seq<string> {
    if cells == [] then [] else [Unpad(cells[0])] + UnpadAll(cells[1..])
  }

  /** The cells a reader finds in a row, between its two outer pipes. */
  function ReadRow(line: string): seq<string> {
    var cells := Cells(line, "", false);
    if |cells| < 2 then [] else UnpadAll(cells[1..|cells| - 1])
  }

  /** A text's lines after the heading and before the empty end, each read as a row. */
  function ReadTable(text: string): seq<seq<string>> {
    var lines := Split(text, '\n');
    if |lines| < 11 then [] else seq(|lines| - 11, i requires 0 <= i < |lines| - 11 => ReadRow(lines[10 + i]))
  }

  function UnixCells(cells: seq<string>): seq<string> {
    if cells == [] then [] else [UnixLines(cells[0])] + UnixCells(cells[1..])
  }

  lemma {:induction false} UnpadPadded(cells: seq<string>)
    ensures UnpadAll(Padded(cells)) == UnixCells(cells)
  {
    if cells != [] {
      var e := EscapeMarkdownCell(cells[0]);
      CellRoundTrip(cells[0]);
      hide EscapeMarkdownCell, UnixLines, Decode;
      UnpadPadded(cells[1..]);
      var cell := " " + e + " ";
      assert cell[1..|cell| - 1] == e;
      assert Padded(cells) == [cell] + Padded(cells[1..]);
    }
  }

  lemma ReadsRow(cells: seq<string>)
    ensures ReadRow(Row(cells)) == UnixCells(cells)
  {
    RowIsOneRow(cells);
    UnpadPadded(cells);
    hide Row, Cells, UnpadAll, UnixCells;
    var found := [""] + Padded(cells) + [""];
    assert found[1..|found| - 1] == Padded(cells);
  }

  lemma ReadsTable(text: string, lines: seq<string>, findings: seq<Finding>)
    requires Split(text, '\n') == lines + [""] && |lines| == 10 + |findings| && lines[10..] == Rows(Table(findings))
    ensures |ReadTable(text)| == |findings|
    ensures forall i | 0 <= i < |findings| :: ReadTable(text)[i] == UnixCells(FindingCells(findings[i]))
  {
    hide Split, Row, ReadRow, FindingCells, UnixCells;
    var table := ReadTable(text);
    forall i | 0 <= i < |findings| ensures table[i] == UnixCells(FindingCells(findings[i])) {
      ReadsRow(FindingCells(findings[i]));
      assert (lines + [""])[10 + i] == lines[10..][i] == Row(FindingCells(findings[i]));
    }
  }

  /**
   * Whatever the fields hold, a reader of the rendered text finds one row for each finding, in order, with the
   * finding's six fields, their line ends read as line feeds.
   */
  lemma ReportReadsBack(generatedAt: string, report: Report)
    ensures var table := ReadTable(Join(Lines(generatedAt, report), '\n') + "\n");
            && |table| == |report.findings|
            && forall i | 0 <= i < |table| :: table[i] == UnixCells(FindingCells(report.findings[i]))
  {
    ReportLines(generatedAt, report);
    hide Heading, Rows, Split, Join, ReadTable, Table, UnixCells, FindingCells;
    assert Lines(generatedAt, report)[10..] == Rows(Table(report.findings));
    ReadsTable(Join(Lines(generatedAt, report), '\n') + "\n", Lines(generatedAt, report), report.findings);
  }
}
