/** The spreadsheet exports (app/utils/excel_export.py): the values and the
    style tag written into each row of the cover, checklist and summary
    sheets. Column widths, merges, colours, frozen panes, the autofilter and
    the chart object are workbook layout and are not modelled. */
module ExcelExport {
  import opened Wrappers
  import opened Sorting
  import opened Text
  import opened Catalog
  import opened AuditModel
  import opened AuthRoutes

  // ---------------------------------------------------------------------
  // Which checks the fieldwork checklist lists

  /** The checklist's filters: a nonzero level keeps that level only
      (`if level:`), and `scoredOnly` keeps scored checks only. */
  predicate Keeps(level: Option<int>, scoredOnly: bool, c: Check) {
    && (match level case None => true case Some(l) => l == 0 || c.level == l)
    && (!scoredOnly || c.scored)
  }

  /** `export_benchmark_to_excel`'s query: the benchmark's checks that pass
      the filters, ordered by check number. */
  function ChecklistChecks(cat: Catalog, b: nat, level: Option<int>, scoredOnly: bool): (r: seq<Check>)
    ensures forall c :: c in r <==>
      && c in BenchmarkChecks(cat, b)
      && (level.None? || level.value == 0 || c.level == level.value)
      && (!scoredOnly || c.scored)
    ensures Sorted(r, ChecksByNumber)
  {
    ChecksByNumberTotalPreorder();
    SortBy(Filter(BenchmarkChecks(cat, b), (c: Check) => Keeps(level, scoredOnly, c)), ChecksByNumber)
  }

  /** Without filters the checklist holds every check of the benchmark once:
      as many rows as `Benchmark.total_checks`. */
  lemma {:induction false} ChecklistUnfiltered(cat: Catalog, b: nat, level: Option<int>)
    requires level.None? || level.value == 0
    ensures multiset(ChecklistChecks(cat, b, level, false)) == multiset(BenchmarkChecks(cat, b))
    ensures |ChecklistChecks(cat, b, level, false)| == |BenchmarkChecks(cat, b)|
  {
    var p := (c: Check) => Keeps(level, false, c);
    FilterExtremes(BenchmarkChecks(cat, b), p);
    ChecksByNumberTotalPreorder();
    SortByPermutation(Filter(BenchmarkChecks(cat, b), p), ChecksByNumber);
  }

  // ---------------------------------------------------------------------
  // Cell values and styles

  /** The cell formats a data row can be written in. */
  datatype Style = Cell | CellAlt | CellL2 | CellL2Alt | PassStyle | FailStyle | NaStyle

  /** The fieldwork checklist's row format: level-2 checks have their own
      pair of shades, and even rows take the alternate shade. */
  function ChecklistStyle(level: int, row: nat): (s: Style)
    ensures s.CellL2? || s.CellL2Alt? <==> level == 2
    ensures s.CellAlt? || s.CellL2Alt? <==> row % 2 == 0
    ensures s.Cell? || s.CellAlt? || s.CellL2? || s.CellL2Alt?
  {
    if level == 2 then (if row % 2 == 0 then CellL2Alt else CellL2)
    else (if row % 2 == 0 then CellAlt else Cell)
  }

  /** The audit checklist's row format: pass, fail and not-applicable have
      their own formats; anything else is banded by row parity. */
  function AuditStyle(status: string, row: nat): (s: Style)
    ensures s.PassStyle? <==> status == Pass
    ensures s.FailStyle? <==> status == Fail
    ensures s.NaStyle? <==> status == NotApplicable
    ensures status != Pass && status != Fail && status != NotApplicable ==>
      (s.Cell? || s.CellAlt?) && (s.CellAlt? <==> row % 2 == 0)
  {
    if status == Pass then PassStyle
    else if status == Fail then FailStyle
    else if status == NotApplicable then NaStyle
    else if row % 2 == 0 then CellAlt else Cell
  }

  /** `(check.audit_command or check.audit_steps or '').strip()`: the command
      when there is one, else the GUI steps. */
  function AuditText(c: Check): (r: string)
    ensures c.auditCommand != [] ==> r == Strip(c.auditCommand)
    ensures c.auditCommand == [] ==> r == Strip(c.auditSteps)
  {
    Strip(if c.auditCommand != [] then c.auditCommand else c.auditSteps)
  }

  /** The choice between command and steps is made before stripping: a
      command of blanks hides the steps and leaves the cell empty. */
  lemma {:induction false} BlankCommandHidesSteps(c: Check)
    requires c.auditCommand == " "
    ensures AuditText(c) == []
  {
    StripSpec(c.auditCommand);
  }

  /** The labels shown for the four result statuses. */
  const PassLabel := "Pass"
  const FailLabel := "Fail"
  const NaLabel := "N/A"
  const NotCheckedLabel := "Not Checked"

  /** The status dropdown of the fieldwork checklist. */
  const StatusChoices := [PassLabel, FailLabel, NaLabel, NotCheckedLabel]

  /** `status_display`: the label of a legal status; any other stored value
      is shown as it is. */
  function StatusLabel(status: string): (caption: string)
    ensures status == Pass ==> caption == PassLabel
    ensures status == Fail ==> caption == FailLabel
    ensures status == NotApplicable ==> caption == NaLabel
    ensures status == NotChecked ==> caption == NotCheckedLabel
    ensures LegalStatus(status) ==> caption in StatusChoices
    ensures !LegalStatus(status) ==> caption == status
  {
    if status == Pass then PassLabel
    else if status == Fail then FailLabel
    else if status == NotApplicable then NaLabel
    else if status == NotChecked then NotCheckedLabel
    else status
  }

  /** The status a dropdown label stands for. */
  function StatusOfLabel(caption: string): (r: Option<string>)
    ensures caption == PassLabel ==> r == Some(Pass)
    ensures caption == FailLabel ==> r == Some(Fail)
    ensures caption == NaLabel ==> r == Some(NotApplicable)
    ensures caption == NotCheckedLabel ==> r == Some(NotChecked)
    ensures r.Some? <==> caption in StatusChoices
    ensures r.Some? ==> LegalStatus(r.value)
  {
    if caption == PassLabel then Some(Pass)
    else if caption == FailLabel then Some(Fail)
    else if caption == NaLabel then Some(NotApplicable)
    else if caption == NotCheckedLabel then Some(NotChecked)
    else None
  }

  /** The labels of the legal statuses are exactly the dropdown choices, one
      each: reading a label back gives the status it was made from, and every
      choice is the label of the status it reads back as. */
  lemma {:induction false} StatusLabelRoundTrip(status: string, caption: string)
    ensures LegalStatus(status) ==> StatusOfLabel(StatusLabel(status)) == Some(status)
    ensures caption in StatusChoices ==> StatusLabel(StatusOfLabel(caption).value) == caption
  {
  }

  function LevelLabel(level: int): string {
    "L" + IntToString(level)
  }

  function ScoredLabel(scored: bool): string {
    if scored then "Yes" else "No"
  }

  /** One data row of a checklist sheet, column by column, with its format. */
  datatype Row = Row(
    number: string, title: string, level: string, scored: string,
    auditText: string, expected: string, status: string, findings: string,
    remediation: string, style: Style)

  /** A row of the fieldwork checklist: status and findings are left blank
      for the auditor. */
  function ChecklistRow(c: Check, row: nat): (r: Row)
    ensures r.status == [] && r.findings == []
    ensures r.number == c.number && r.auditText == AuditText(c)
    ensures r.style == ChecklistStyle(c.level, row)
  {
    Row(c.number, c.title, LevelLabel(c.level), ScoredLabel(c.scored), AuditText(c),
        Strip(c.expectedOutput), [], [], Strip(c.remediation), ChecklistStyle(c.level, row))
  }

  /** A row of the audit checklist: the result's status label and finding. */
  function AuditRow(c: Check, res: AuditResult, row: nat): (r: Row)
    ensures r.status == StatusLabel(res.status) && r.findings == res.finding
    ensures r.style == AuditStyle(res.status, row)
  {
    Row(c.number, c.title, LevelLabel(c.level), ScoredLabel(c.scored), AuditText(c),
        Strip(c.expectedOutput), StatusLabel(res.status), res.finding, Strip(c.remediation),
        AuditStyle(res.status, row))
  }

  /** Both checklists show a check the same way; they differ only in the
      status and findings columns and in the row format. */
  lemma {:induction false} RowsShowSameCheck(c: Check, res: AuditResult, row: nat)
    ensures AuditRow(c, res, row).(status := [], findings := [], style := Cell) ==
            ChecklistRow(c, row).(style := Cell)
  {
  }

  // ---------------------------------------------------------------------
  // The checklist sheets

  /** A dropdown on the status column for the rows `firstRow` to `lastRow`. */
  datatype Validation = Validation(firstRow: nat, lastRow: nat, choices: seq<string>)

  datatype ChecklistSheet = ChecklistSheet(rows: seq<Row>, validation: Option<Validation>)

  /** One row per item, made by `row` from the item and its sheet row, the
      first item on sheet row 1 (row 0 holds the headers). */
  function NumberedRows<T>(items: seq<T>, row: (T, nat) -> Row): (rows: seq<Row>)
    ensures |rows| == |items|
    ensures forall i :: 0 <= i < |items| ==> rows[i] == row(items[i], i + 1)
  {
    if items == [] then []
    else
      var n := |items| - 1;
      assert forall i :: 0 <= i < n ==> items[..n][i] == items[i];
      NumberedRows(items[..n], row) + [row(items[n], n + 1)]
  }

  lemma {:induction false} NumberedRowsPrefix<T>(items: seq<T>, row: (T, nat) -> Row, i: nat)
    requires i < |items|
    ensures NumberedRows(items[..i + 1], row) == NumberedRows(items[..i], row) + [row(items[i], i + 1)]
  {
    assert items[..i + 1][..i] == items[..i];
  }

  /** The fieldwork rows for `checks`. */
  function ChecklistRows(checks: seq<Check>): seq<Row> {
    NumberedRows(checks, (c: Check, row: nat) => ChecklistRow(c, row))
  }

  /** `_write_checklist_sheet`: one row per check from sheet row 1 on, and the
      status dropdown over rows 1 to `len(checks) + 1`. */
  method WriteChecklist(checks: seq<Check>) returns (sheet: ChecklistSheet)
    ensures sheet.rows == ChecklistRows(checks)
    ensures sheet.validation == Some(Validation(1, |checks| + 1, StatusChoices))
  {
    var rows := [];
    for i := 0 to |checks|
      invariant rows == ChecklistRows(checks[..i])
    {
      var rowIdx := i + 1;
      NumberedRowsPrefix(checks, (c: Check, row: nat) => ChecklistRow(c, row), i);
      rows := rows + [ChecklistRow(checks[i], rowIdx)];
    }
    assert checks[..|checks|] == checks;
    sheet := ChecklistSheet(rows, Some(Validation(1, |checks| + 1, StatusChoices)));
  }

  /** Every result's check exists (the join with the checks table). */
  predicate ChecksKnown(cat: Catalog, results: seq<AuditResult>) {
    forall i :: 0 <= i < |results| ==> HasCheck(cat, results[i].checkId)
  }

  /** Each result beside the check it is about (`result.check`). */
  function Joined(cat: Catalog, results: seq<AuditResult>): (pairs: seq<(Check, AuditResult)>)
    requires ChecksKnown(cat, results)
  {
    seq(|results|, i requires 0 <= i < |results| => (CheckAt(cat, results[i].checkId), results[i]))
  }

  /** The audit rows for `results`, each shown with its check. */
  function AuditRows(cat: Catalog, results: seq<AuditResult>): seq<Row>
    requires ChecksKnown(cat, results)
  {
    NumberedRows(Joined(cat, results), (p: (Check, AuditResult), row: nat) => AuditRow(p.0, p.1, row))
  }

  /** `_write_audit_checklist_sheet`: one row per result from sheet row 1 on. */
  method WriteAuditChecklist(cat: Catalog, results: seq<AuditResult>) returns (sheet: ChecklistSheet)
    requires ChecksKnown(cat, results)
    ensures sheet.rows == AuditRows(cat, results)
    ensures sheet.validation == None
  {
    var pairs := Joined(cat, results);
    var rows := [];
    for i := 0 to |results|
      invariant rows == NumberedRows(pairs[..i], (p: (Check, AuditResult), row: nat) => AuditRow(p.0, p.1, row))
    {
      var check := CheckAt(cat, results[i].checkId);
      NumberedRowsPrefix(pairs, (p: (Check, AuditResult), row: nat) => AuditRow(p.0, p.1, row), i);
      rows := rows + [AuditRow(check, results[i], i + 1)];
    }
    assert pairs[..|results|] == pairs;
    sheet := ChecklistSheet(rows, None);
  }

  // ---------------------------------------------------------------------
  // Label/value blocks of the cover and summary sheets

  datatype CellValue = Text(text: string) | Number(number: nat)

  /** A label in column A and its value in column B, on one sheet row. */
  datatype LabelCell = LabelCell(row: nat, caption: string, value: CellValue)

  /** The cells a label/value list produces from sheet row `start` on: a pair
      with a blank label leaves its row empty. */
  function LabelledCells(fields: seq<(string, CellValue)>, start: nat): (cells: seq<LabelCell>)
    ensures |cells| <= |fields|
    ensures forall k :: 0 <= k < |fields| && fields[k].0 != [] ==>
      LabelCell(start + k, fields[k].0, fields[k].1) in cells
    ensures forall c :: c in cells ==>
      && start <= c.row < start + |fields| && c.caption != []
      && fields[c.row - start] == (c.caption, c.value)
  {
    if fields == [] then []
    else
      var n := |fields| - 1;
      var init := LabelledCells(fields[..n], start);
      assert forall k :: 0 <= k < n ==> fields[..n][k] == fields[k];
      init + (if fields[n].0 != [] then [LabelCell(start + n, fields[n].0, fields[n].1)] else [])
  }

  /** The loop that writes such a list, one sheet row per pair. */
  method WriteFields(fields: seq<(string, CellValue)>, start: nat) returns (cells: seq<LabelCell>, next: nat)
    ensures cells == LabelledCells(fields, start)
    ensures next == start + |fields|
  {
    cells := [];
    var row := start;
    for i := 0 to |fields|
      invariant row == start + i
      invariant cells == LabelledCells(fields[..i], start)
    {
      var (caption, value) := fields[i];
      assert fields[..i + 1][..i] == fields[..i];
      if caption != [] {
        cells := cells + [LabelCell(row, caption, value)];
      }
      row := row + 1;
    }
    assert fields[..|fields|] == fields;
    next := row;
  }

  /** The label/value list of the benchmark cover sheet. */
  function BenchmarkCoverFields(cat: Catalog, b: nat, exportedAt: DateTime): (fields: seq<(string, CellValue)>)
    requires WellFormed(cat) && HasBenchmark(cat, b)
    ensures |fields| == 14
    ensures fields[3].1 == Text(if BenchmarkAt(cat, b).releaseDate.Some?
                                then BenchmarkAt(cat, b).releaseDate.value else "N/A")
    ensures fields[8] == ("Total Checks:", Text(NatToString(|BenchmarkChecks(cat, b)|)))
  {
    var bench := BenchmarkAt(cat, b);
    [("Benchmark:", Text(bench.name)),
     ("Version:", Text(bench.version)),
     ("Platform:", Text(PlatformAt(cat, bench.platformId).name)),
     ("Release Date:", Text(bench.releaseDate.GetOr("N/A"))),
     ("Description:", Text(bench.description)),
     ("Reference URL:", Text(bench.url)),
     ("", Text("")),
     ("Export Date:", Text(FormatDateTime(exportedAt))),
     ("Total Checks:", Text(NatToString(|BenchmarkChecks(cat, b)|))),
     ("", Text("")),
     ("Target System:", Text("")),
     ("Target IP:", Text("")),
     ("Auditor Name:", Text("")),
     ("Audit Date:", Text(""))]
  }

  /** How a session's status reads on the cover: underscores become spaces
      and each word is capitalised. */
  function StatusTitle(status: string): string {
    TitleCase(ReplaceChar(status, '_', ' '))
  }

  /** The two session statuses as the cover shows them. */
  lemma {:induction false} InProgressTitle()
    ensures StatusTitle(InProgress) == "In Progress"
  {
    var spaced := ReplaceChar(InProgress, '_', ' ');
    assert spaced == "in progress";
    assert TitleCase(spaced)[0] == 'I' && TitleCase(spaced)[3] == 'P';
  }

  lemma {:induction false} CompletedTitle()
    ensures StatusTitle(Completed) == "Completed"
  {
    assert ReplaceChar(Completed, '_', ' ') == "completed";
    assert TitleCase("completed")[0] == 'C';
  }

  /** The label/value list of the audit cover sheet. */
  function AuditCoverFields(cat: Catalog, session: AuditSession, auditor: User): (fields: seq<(string, CellValue)>)
    requires WellFormed(cat) && HasBenchmark(cat, session.benchmarkId)
    ensures |fields| == 12
    ensures fields[6] == ("Auditor:", Text(DisplayNameOr(auditor.displayName, auditor.username)))
    ensures fields[8].1 == Text(if session.completedAt.Some? then FormatDateTime(session.completedAt.value)
                                else "In Progress")
    ensures fields[9] == ("Status:", Text(StatusTitle(session.status)))
  {
    var bench := BenchmarkAt(cat, session.benchmarkId);
    [("Benchmark:", Text(bench.name)),
     ("Version:", Text(bench.version)),
     ("Platform:", Text(PlatformAt(cat, bench.platformId).name)),
     ("", Text("")),
     ("Target System:", Text(session.targetName)),
     ("Target IP:", Text(session.targetIp)),
     ("Auditor:", Text(DisplayNameOr(auditor.displayName, auditor.username))),
     ("Started:", Text(FormatDateTime(session.startedAt))),
     ("Completed:", Text(match session.completedAt
                          case Some(t) => FormatDateTime(t)
                          case None => "In Progress")),
     ("Status:", Text(StatusTitle(session.status))),
     ("", Text("")),
     ("Notes:", Text(session.notes))]
  }

  /** A cover sheet: its merged title on row 1 and its label/value cells from row 3. */
  datatype Cover = Cover(title: string, cells: seq<LabelCell>)

  method WriteBenchmarkCover(cat: Catalog, b: nat, exportedAt: DateTime) returns (cover: Cover)
    requires WellFormed(cat) && HasBenchmark(cat, b)
    ensures cover == Cover(BenchmarkAt(cat, b).name, LabelledCells(BenchmarkCoverFields(cat, b, exportedAt), 3))
  {
    var row := 1;
    var title := BenchmarkAt(cat, b).name;
    row := row + 2;
    var cells, _ := WriteFields(BenchmarkCoverFields(cat, b, exportedAt), row);
    cover := Cover(title, cells);
  }

  method WriteAuditCover(cat: Catalog, session: AuditSession, auditor: User) returns (cover: Cover)
    requires WellFormed(cat) && HasBenchmark(cat, session.benchmarkId)
    ensures cover == Cover("Audit Report: " + session.targetName,
                           LabelledCells(AuditCoverFields(cat, session, auditor), 3))
  {
    var row := 1;
    var title := "Audit Report: " + session.targetName;
    row := row + 2;
    var cells, _ := WriteFields(AuditCoverFields(cat, session, auditor), row);
    cover := Cover(title, cells);
  }

  // ---------------------------------------------------------------------
  // The summary sheet: overall counts and the per-section breakdown

  /** `{number}. {title}` of the top-level section above a result's check. */
  function TopLabel(cat: Catalog, r: AuditResult): string
    requires WellFormed(cat) && HasCheck(cat, r.checkId)
  {
    assert cat.checks[r.checkId - 1] in cat.checks;
    var top := SectionAt(cat, TopAncestor(cat, CheckAt(cat, r.checkId).sectionId));
    top.number + ". " + top.title
  }

  /** One group of the breakdown: passed, checked and total results. */
  datatype Tally = Tally(passed: nat, checked: nat, total: nat)

  /** A tally with one more result of status `status` counted in. */
  function Count(t: Tally, status: string): (u: Tally)
    ensures u.total == t.total + 1
    ensures u.checked == t.checked + (if status != NotChecked then 1 else 0)
    ensures u.passed == t.passed + (if status == Pass then 1 else 0)
  {
    Tally(t.passed + (if status == Pass then 1 else 0),
          t.checked + (if status != NotChecked then 1 else 0),
          t.total + 1)
  }

  /** The label each result is grouped under. */
  function Labels(cat: Catalog, results: seq<AuditResult>): (labels: seq<string>)
    requires WellFormed(cat) && ChecksKnown(cat, results)
    ensures |labels| == |results|
    ensures forall i :: 0 <= i < |results| ==> labels[i] == TopLabel(cat, results[i])
  {
    seq(|results|, i requires 0 <= i < |results| => TopLabel(cat, results[i]))
  }

  /** The tally of the results whose label is `group`, `labels[i]` being the
      label of `results[i]`. */
  function GroupTally(labels: seq<string>, results: seq<AuditResult>, group: string): (t: Tally)
    requires |labels| == |results|
    ensures t.passed <= t.checked <= t.total <= |results|
    ensures t.total == 0 <==> forall i :: 0 <= i < |labels| ==> labels[i] != group
  {
    if results == [] then Tally(0, 0, 0)
    else
      var n := |results| - 1;
      assert forall i :: 0 <= i < n ==> labels[..n][i] == labels[i];
      var t := GroupTally(labels[..n], results[..n], group);
      if labels[n] != group then t else Count(t, results[n].status)
  }

  /** The walk up the parent links to the top-level section. */
  method ClimbToTop(cat: Catalog, s: nat) returns (top: nat)
    requires WellFormed(cat) && HasSection(cat, s)
    ensures top == TopAncestor(cat, s)
  {
    top := s;
    while SectionAt(cat, top).parentId.Some?
      invariant HasSection(cat, top) && TopAncestor(cat, top) == TopAncestor(cat, s)
      decreases top
    {
      assert SectionLinked(cat, top - 1);
      top := SectionAt(cat, top).parentId.value;
    }
  }

  /** The label a result is grouped under, found by climbing from its
      check's section. */
  method GroupOf(cat: Catalog, r: AuditResult) returns (group: string)
    requires WellFormed(cat) && HasCheck(cat, r.checkId)
    ensures group == TopLabel(cat, r)
  {
    assert cat.checks[r.checkId - 1] in cat.checks;
    var top := ClimbToTop(cat, CheckAt(cat, r.checkId).sectionId);
    var sec := SectionAt(cat, top);
    group := sec.number + ". " + sec.title;
  }

  /** Sum of the totals of the groups named in `order`. */
  function TotalOver(stats: map<string, Tally>, order: seq<string>): nat
    requires forall l :: l in order ==> l in stats
  {
    if order == [] then 0
    else TotalOver(stats, order[..|order| - 1]) + stats[order[|order| - 1]].total
  }

  /** Changing the tally of one group changes the sum by the difference. */
  lemma {:induction false} TotalOverUpdate(stats: map<string, Tally>, order: seq<string>, l: string, t: Tally)
    requires forall x :: x in order ==> x in stats
    requires Distinct(order) && l in stats
    ensures l in order ==> TotalOver(stats[l := t], order) + stats[l].total == TotalOver(stats, order) + t.total
    ensures l !in order ==> TotalOver(stats[l := t], order) == TotalOver(stats, order)
  {
    if order != [] {
      var n := |order| - 1;
      assert forall i, j :: 0 <= i < j < n ==> order[..n][i] == order[i] && order[..n][j] == order[j];
      TotalOverUpdate(stats, order[..n], l, t);
      assert l in order[..n] ==> order[n] != l;
    }
  }

  /** The same for a group that is not named yet. */
  lemma {:induction false} TotalOverFresh(stats: map<string, Tally>, order: seq<string>, l: string, t: Tally)
    requires forall x :: x in order ==> x in stats
    requires l !in order
    ensures TotalOver(stats[l := t], order) == TotalOver(stats, order)
  {
    if order != [] {
      TotalOverFresh(stats, order[..|order| - 1], l, t);
    }
  }

  /** Counting into a group already present adds one to the sum of totals. */
  lemma {:induction false} CountIntoPresent(stats: map<string, Tally>, order: seq<string>, group: string, status: string)
    requires forall l :: l in stats <==> l in order
    requires Distinct(order) && group in stats
    ensures TotalOver(stats[group := Count(stats[group], status)], order) == TotalOver(stats, order) + 1
  {
    TotalOverUpdate(stats, order, group, Count(stats[group], status));
  }

  /** Counting into a new group appends it to the key order and adds one to
      the sum of totals. */
  lemma {:induction false} CountIntoNew(stats: map<string, Tally>, order: seq<string>, group: string, status: string)
    requires forall l :: l in stats <==> l in order
    requires Distinct(order) && group !in stats
    ensures var after := stats[group := Count(Tally(0, 0, 0), status)];
      && (forall l :: l in after <==> l in order + [group])
      && Distinct(order + [group])
      && TotalOver(after, order + [group]) == TotalOver(stats, order) + 1
  {
    var after := stats[group := Count(Tally(0, 0, 0), status)];
    TotalOverFresh(stats, order, group, Count(Tally(0, 0, 0), status));
    DistinctAppend(order, group);
    assert (order + [group])[..|order|] == order;
  }

  /** One pass of the grouping loop's body: the group gets a zero tally the
      first time it is met, then the result is counted into it. */
  method CountInto(stats: map<string, Tally>, order: seq<string>, group: string, status: string)
    returns (stats': map<string, Tally>, order': seq<string>)
    requires forall l :: l in stats <==> l in order
    requires Distinct(order)
    ensures stats' == stats[group := Count(if group in stats then stats[group] else Tally(0, 0, 0), status)]
    ensures order' == if group in stats then order else order + [group]
    ensures forall l :: l in stats' <==> l in order'
    ensures Distinct(order')
    ensures TotalOver(stats', order') == TotalOver(stats, order) + 1
  {
    if group in stats {
      CountIntoPresent(stats, order, group, status);
      stats', order' := stats[group := Count(stats[group], status)], order;
    } else {
      CountIntoNew(stats, order, group, status);
      stats', order' := stats[group := Count(Tally(0, 0, 0), status)], order + [group];
    }
  }

  /** Counting result `i` into tallies that are right for the results before
      it makes them right for the results up to and including it. */
  lemma {:induction false} StatsStep(labels: seq<string>, results: seq<AuditResult>, i: nat,
                  stats: map<string, Tally>, after: map<string, Tally>)
    requires |labels| == |results| && i < |results|
    requires forall l :: l in stats <==> GroupTally(labels[..i], results[..i], l).total != 0
    requires forall l :: l in stats ==> stats[l] == GroupTally(labels[..i], results[..i], l)
    requires var group := labels[i];
      after == stats[group := Count(if group in stats then stats[group] else Tally(0, 0, 0), results[i].status)]
    ensures forall l :: l in after <==> GroupTally(labels[..i + 1], results[..i + 1], l).total != 0
    ensures forall l :: l in after ==> after[l] == GroupTally(labels[..i + 1], results[..i + 1], l)
  {
    var group := labels[i];
    assert labels[..i + 1][..i] == labels[..i] && results[..i + 1][..i] == results[..i];
    var prev := if group in stats then stats[group] else Tally(0, 0, 0);
    assert prev == GroupTally(labels[..i], results[..i], group) by {
      if group !in stats {
        assert GroupTally(labels[..i], results[..i], group).total == 0;
      }
    }
    forall l
      ensures l in after <==> GroupTally(labels[..i + 1], results[..i + 1], l).total != 0
      ensures l in after ==> after[l] == GroupTally(labels[..i + 1], results[..i + 1], l)
    {
      if l == group {
        assert GroupTally(labels[..i + 1], results[..i + 1], l) == Count(prev, results[i].status);
      } else {
        assert GroupTally(labels[..i + 1], results[..i + 1], l) == GroupTally(labels[..i], results[..i], l);
      }
    }
  }

  /** The grouping loop of `_write_summary_sheet`: a dict from label to
      tally, its labels in the order first met; a label is present exactly
      when some result falls under it. */
  method GroupBySection(cat: Catalog, results: seq<AuditResult>)
    returns (stats: map<string, Tally>, order: seq<string>)
    requires WellFormed(cat) && ChecksKnown(cat, results)
    ensures forall l :: l in stats <==> l in order
    ensures Distinct(order)
    ensures forall l :: l in stats <==> GroupTally(Labels(cat, results), results, l).total != 0
    ensures forall l :: l in stats ==> stats[l] == GroupTally(Labels(cat, results), results, l)
    ensures TotalOver(stats, order) == |results|
  {
    ghost var labels := Labels(cat, results);
    stats := map[];
    order := [];
    for i := 0 to |results|
      invariant forall l :: l in stats <==> l in order
      invariant Distinct(order)
      invariant forall l :: l in stats <==> GroupTally(labels[..i], results[..i], l).total != 0
      invariant forall l :: l in stats ==> stats[l] == GroupTally(labels[..i], results[..i], l)
      invariant TotalOver(stats, order) == i
    {
      var r := results[i];
      var group := GroupOf(cat, r);
      ghost var before := stats;
      stats, order := CountInto(stats, order, group, r.status);
      StatsStep(labels, results, i, before, stats);
    }
    assert labels[..|results|] == labels && results[..|results|] == results;
  }

  /** The overall figures of the summary sheet, as label/value pairs written
      from sheet row 3; `checked` is computed as total minus not checked. */
  function SummaryFields(results: seq<AuditResult>): (fields: seq<(string, CellValue)>)
    ensures |fields| == 8
    ensures fields[0] == ("Total Checks:", Number(|results|))
    ensures fields[1] == ("Checked:", Number(CountChecked(results)))
    ensures fields[2] == ("Not Checked:", Number(CountStatus(results, NotChecked)))
    ensures fields[3].0 == [] && fields[7].0 == []
    ensures fields[4] == ("Pass:", Number(PassCount(results)))
    ensures fields[5] == ("Fail:", Number(FailCount(results)))
    ensures fields[6] == ("Not Applicable:", Number(NaCount(results)))
  {
    CheckedIsTotalMinusNotChecked(results);
    var notChecked := CountStatus(results, NotChecked);
    [("Total Checks:", Number(|results|)),
     ("Checked:", Number(|results| - notChecked)),
     ("Not Checked:", Number(notChecked)),
     ("", Text("")),
     ("Pass:", Number(PassCount(results))),
     ("Fail:", Number(FailCount(results))),
     ("Not Applicable:", Number(NaCount(results))),
     ("", Text(""))]
  }

  /** The sheet row of the first section of the breakdown. */
  const BreakdownStart := 15

  /** One row of the per-section breakdown: the section label, `passed /
      checked`, and the section's compliance rate. */
  datatype BreakdownLine = BreakdownLine(row: nat, section: string, ratio: string, rate: real, style: Style)

  function Breakdown(row: nat, section: string, t: Tally): (line: BreakdownLine)
    ensures line.row == row && line.section == section
    ensures line.ratio == NatToString(t.passed) + " / " + NatToString(t.checked)
    ensures line.rate == Compliance(t.passed, t.checked)
    ensures t.passed <= t.checked ==> 0.0 <= line.rate <= 1.0
    ensures t.checked == 0 ==> line.rate == 0.0
    ensures line.style.CellAlt? <==> row % 2 == 0
    ensures line.style.Cell? || line.style.CellAlt?
  {
    BreakdownLine(row, section, NatToString(t.passed) + " / " + NatToString(t.checked),
                  Compliance(t.passed, t.checked), if row % 2 == 0 then CellAlt else Cell)
  }

  /** The breakdown rows for the groups `keys`, the first on sheet row `start`. */
  function BreakdownLines(keys: seq<string>, stats: map<string, Tally>, start: nat): (lines: seq<BreakdownLine>)
    requires forall l :: l in keys ==> l in stats
    ensures |lines| == |keys|
    ensures forall k :: 0 <= k < |keys| ==> lines[k].section == keys[k]
    ensures forall k :: 0 <= k < |keys| ==> lines[k] == Breakdown(start + k, keys[k], stats[keys[k]])
  {
    if keys == [] then []
    else
      var n := |keys| - 1;
      assert forall k :: 0 <= k < n ==> keys[..n][k] == keys[k];
      BreakdownLines(keys[..n], stats, start) + [Breakdown(start + n, keys[n], stats[keys[n]])]
  }

  /** The pie chart's data: the four status counts. */
  function ChartData(results: seq<AuditResult>): (data: seq<(string, nat)>)
    ensures |data| == 4
    ensures data[0] == ("Pass", PassCount(results)) && data[1] == ("Fail", FailCount(results))
    ensures data[2] == ("N/A", NaCount(results)) && data[3] == ("Not Checked", CountStatus(results, NotChecked))
  {
    [("Pass", PassCount(results)), ("Fail", FailCount(results)),
     ("N/A", NaCount(results)), ("Not Checked", CountStatus(results, NotChecked))]
  }

  /** When every result holds a legal status, the slices of the chart add up
      to all results. */
  lemma {:induction false} ChartCoversResults(results: seq<AuditResult>)
    requires forall i :: 0 <= i < |results| ==> LegalStatus(results[i].status)
    ensures var data := ChartData(results); data[0].1 + data[1].1 + data[2].1 + data[3].1 == |results|
  {
    CountsPartition(results);
  }

  /** The summary sheet: the overall figures, the overall compliance rate
      (sheet row 11), the breakdown, and the chart, drawn only when there are
      results. */
  datatype Summary = Summary(
    figures: seq<LabelCell>, compliance: real,
    breakdown: seq<BreakdownLine>, chart: Option<seq<(string, nat)>>)

  /** The breakdown lists every group that some result falls under, once
      each, in code-point order of the label, with that group's tally, from
      sheet row 15 on. */
  ghost predicate IsBreakdown(labels: seq<string>, results: seq<AuditResult>, lines: seq<BreakdownLine>)
    requires |labels| == |results|
  {
    && (forall k :: 0 <= k < |lines| ==>
          lines[k] == Breakdown(BreakdownStart + k, lines[k].section, GroupTally(labels, results, lines[k].section)))
    && (forall l :: l in labels <==> exists k :: 0 <= k < |lines| && lines[k].section == l)
    && (forall j, k :: 0 <= j < k < |lines| ==>
          LexLe(lines[j].section, lines[k].section) && lines[j].section != lines[k].section)
  }

  /** Python's `sorted` on strings: code-point order, the same strings, and
      no string twice if there was none twice before. */
  function SortedStrings(s: seq<string>): (r: seq<string>)
    ensures forall x :: x in r <==> x in s
    ensures Sorted(r, LexLe)
    ensures Distinct(s) ==> Distinct(r)
  {
    LexLeTotalPreorder();
    var r := SortBy(s, LexLe);
    assert Distinct(s) ==> Distinct(r) by {
      if Distinct(s) {
        SortByDistinct(s, LexLe);
      }
    }
    r
  }

  /** The breakdown loop over `sorted(section_stats.keys())`. */
  method WriteBreakdown(stats: map<string, Tally>, keys: seq<string>) returns (lines: seq<BreakdownLine>)
    requires forall l :: l in keys ==> l in stats
    ensures lines == BreakdownLines(keys, stats, BreakdownStart)
  {
    lines := [];
    var row := BreakdownStart;
    for k := 0 to |keys|
      invariant row == BreakdownStart + k
      invariant lines == BreakdownLines(keys[..k], stats, BreakdownStart)
    {
      var section := keys[k];
      var t := stats[section];
      assert keys[..k + 1][..k] == keys[..k];
      lines := lines + [Breakdown(row, section, t)];
      row := row + 1;
    }
    assert keys[..|keys|] == keys;
  }

  /** Each breakdown line carries the tally of its own group. */
  lemma {:induction false} BreakdownTallies(labels: seq<string>, results: seq<AuditResult>,
                         stats: map<string, Tally>, keys: seq<string>)
    requires |labels| == |results|
    requires forall l :: l in keys ==> l in stats
    requires forall l :: l in stats ==> stats[l] == GroupTally(labels, results, l)
    ensures var lines := BreakdownLines(keys, stats, BreakdownStart);
      forall k :: 0 <= k < |lines| ==>
        lines[k] == Breakdown(BreakdownStart + k, lines[k].section, GroupTally(labels, results, lines[k].section))
  {
    var lines := BreakdownLines(keys, stats, BreakdownStart);
    forall k | 0 <= k < |lines|
      ensures lines[k] == Breakdown(BreakdownStart + k, lines[k].section, GroupTally(labels, results, lines[k].section))
    {
      var l := keys[k];
      assert stats[l] == GroupTally(labels, results, l);
      assert lines[k] == Breakdown(BreakdownStart + k, l, stats[l]);
    }
  }

  /** The breakdown names exactly the groups some result falls under. */
  lemma {:induction false} BreakdownCovers(labels: seq<string>, results: seq<AuditResult>,
                        stats: map<string, Tally>, keys: seq<string>)
    requires |labels| == |results|
    requires forall l :: l in keys <==> l in stats
    requires forall l :: l in stats <==> GroupTally(labels, results, l).total != 0
    ensures var lines := BreakdownLines(keys, stats, BreakdownStart);
      forall l :: l in labels ==> exists k :: 0 <= k < |lines| && lines[k].section == l
    ensures var lines := BreakdownLines(keys, stats, BreakdownStart);
      forall k :: 0 <= k < |lines| ==> lines[k].section in labels
  {
    KeysAreLabels(labels, results, stats, keys);
    SectionsCover(labels, keys, stats, BreakdownStart);
  }

  /** The keys of the tallies are the labels some result carries. */
  lemma {:induction false} KeysAreLabels(labels: seq<string>, results: seq<AuditResult>,
                                         stats: map<string, Tally>, keys: seq<string>)
    requires |labels| == |results|
    requires forall l :: l in keys <==> l in stats
    requires forall l :: l in stats <==> GroupTally(labels, results, l).total != 0
    ensures forall l :: l in labels <==> l in keys
  {
    forall l | l in labels ensures l in keys {
      var i :| 0 <= i < |labels| && labels[i] == l;
      GroupedIsTallied(labels, results, i);
    }
    forall l | l in keys ensures l in labels {
      TalliedIsGrouped(labels, results, l);
    }
  }

  /** Lines written for keys that are exactly the labels name exactly the labels. */
  lemma {:induction false} SectionsCover(labels: seq<string>, keys: seq<string>, stats: map<string, Tally>, start: nat)
    requires forall l :: l in keys ==> l in stats
    requires forall l :: l in labels <==> l in keys
    ensures var lines := BreakdownLines(keys, stats, start);
      forall l :: l in labels ==> exists k :: 0 <= k < |lines| && lines[k].section == l
    ensures var lines := BreakdownLines(keys, stats, start);
      forall k :: 0 <= k < |lines| ==> lines[k].section in labels
  {
    var lines := BreakdownLines(keys, stats, start);
    forall l | l in labels ensures exists k :: 0 <= k < |lines| && lines[k].section == l {
      assert l in keys;
      var k :| 0 <= k < |keys| && keys[k] == l;
      assert lines[k].section == l;
    }
    assert forall l :: l in labels ==> exists k :: 0 <= k < |lines| && lines[k].section == l;
    assert lines == BreakdownLines(keys, stats, start);
  }

  /** A label that some result carries has a non-empty tally. */
  lemma {:induction false} GroupedIsTallied(labels: seq<string>, results: seq<AuditResult>, i: nat)
    requires |labels| == |results| && i < |labels|
    ensures GroupTally(labels, results, labels[i]).total != 0
  {
  }

  /** A group with a non-empty tally is some result's label. */
  lemma {:induction false} TalliedIsGrouped(labels: seq<string>, results: seq<AuditResult>, l: string)
    requires |labels| == |results| && GroupTally(labels, results, l).total != 0
    ensures l in labels
  {
    var i :| 0 <= i < |labels| && labels[i] == l;
  }

  /** The breakdown lines follow the order of their keys. */
  lemma {:induction false} BreakdownOrdered(stats: map<string, Tally>, keys: seq<string>)
    requires forall l :: l in keys ==> l in stats
    requires Sorted(keys, LexLe) && Distinct(keys)
    ensures var lines := BreakdownLines(keys, stats, BreakdownStart);
      forall j, k :: 0 <= j < k < |lines| ==>
        LexLe(lines[j].section, lines[k].section) && lines[j].section != lines[k].section
  {
    var lines := BreakdownLines(keys, stats, BreakdownStart);
    forall j, k | 0 <= j < k < |lines|
      ensures LexLe(lines[j].section, lines[k].section) && lines[j].section != lines[k].section
    {
      assert lines[j].section == keys[j] && lines[k].section == keys[k];
    }
  }

  /** Sorting the grouped labels and writing one line per label gives the
      breakdown. */
  lemma {:induction false} BreakdownOfGroups(labels: seq<string>, results: seq<AuditResult>,
                          stats: map<string, Tally>, order: seq<string>)
    requires |labels| == |results|
    requires forall l :: l in stats <==> l in order
    requires Distinct(order)
    requires forall l :: l in stats <==> GroupTally(labels, results, l).total != 0
    requires forall l :: l in stats ==> stats[l] == GroupTally(labels, results, l)
    ensures forall l :: l in SortedStrings(order) ==> l in stats
    ensures IsBreakdown(labels, results, BreakdownLines(SortedStrings(order), stats, BreakdownStart))
  {
    var keys := SortedStrings(order);
    BreakdownTallies(labels, results, stats, keys);
    BreakdownCovers(labels, results, stats, keys);
    BreakdownOrdered(stats, keys);
  }

  /** `_write_summary_sheet`. */
  method WriteSummary(cat: Catalog, results: seq<AuditResult>) returns (summary: Summary)
    requires WellFormed(cat) && ChecksKnown(cat, results)
    ensures summary.figures == LabelledCells(SummaryFields(results), 3)
    ensures summary.compliance == Compliance(PassCount(results), CountChecked(results))
    ensures IsBreakdown(Labels(cat, results), results, summary.breakdown)
    ensures summary.chart == if |results| > 0 then Some(ChartData(results)) else None
  {
    var total := |results|;
    var passCount := PassCount(results);
    var notChecked := CountStatus(results, NotChecked);
    CheckedIsTotalMinusNotChecked(results);
    var checked := total - notChecked;
    var compliance := Compliance(passCount, checked);
    var figures, _ := WriteFields(SummaryFields(results), 3);
    var stats, order := GroupBySection(cat, results);
    var keys := SortedStrings(order);
    BreakdownOfGroups(Labels(cat, results), results, stats, order);
    var lines := WriteBreakdown(stats, keys);
    var chart := None;
    if total > 0 {
      chart := Some(ChartData(results));
    }
    summary := Summary(figures, compliance, lines, chart);
  }

  // ---------------------------------------------------------------------
  // The two workbooks

  datatype BenchmarkWorkbook = BenchmarkWorkbook(cover: Cover, checklist: ChecklistSheet)

  /** `export_benchmark_to_excel`: the cover sheet, then the checklist of the
      checks that pass the filters, by check number. */
  method ExportBenchmarkToExcel(cat: Catalog, b: nat, level: Option<int>, scoredOnly: bool, now: DateTime)
    returns (wb: BenchmarkWorkbook)
    requires WellFormed(cat) && HasBenchmark(cat, b)
    ensures wb.cover == Cover(BenchmarkAt(cat, b).name, LabelledCells(BenchmarkCoverFields(cat, b, now), 3))
    ensures wb.checklist.rows == ChecklistRows(ChecklistChecks(cat, b, level, scoredOnly))
    ensures |wb.checklist.rows| == |ChecklistChecks(cat, b, level, scoredOnly)|
    ensures wb.checklist.validation == Some(Validation(1, |ChecklistChecks(cat, b, level, scoredOnly)| + 1, StatusChoices))
  {
    var cover := WriteBenchmarkCover(cat, b, now);
    var checks := ChecklistChecks(cat, b, level, scoredOnly);
    var checklist := WriteChecklist(checks);
    wb := BenchmarkWorkbook(cover, checklist);
  }

  datatype AuditWorkbook = AuditWorkbook(cover: Cover, checklist: ChecklistSheet, summary: Summary)

  /** What the audit report holds for a session and its results: the cover,
      one checklist row per result in the given order with no status list,
      and the summary of those results. */
  ghost predicate IsAuditReport(cat: Catalog, session: AuditSession, auditor: User,
                                results: seq<AuditResult>, wb: AuditWorkbook)
    requires WellFormed(cat) && HasBenchmark(cat, session.benchmarkId) && ChecksKnown(cat, results)
  {
    && wb.cover == Cover("Audit Report: " + session.targetName,
                         LabelledCells(AuditCoverFields(cat, session, auditor), 3))
    && wb.checklist == ChecklistSheet(AuditRows(cat, results), None)
    && wb.summary.figures == LabelledCells(SummaryFields(results), 3)
    && wb.summary.compliance == Compliance(PassCount(results), CountChecked(results))
    && IsBreakdown(Labels(cat, results), results, wb.summary.breakdown)
    && wb.summary.chart == if |results| > 0 then Some(ChartData(results)) else None
  }

  /** `export_audit_to_excel`: the cover sheet, the session's results by
      check number with their statuses, and the summary of those results. */
  method ExportAuditToExcel(cat: Catalog, allResults: seq<AuditResult>, session: AuditSession, auditor: User)
    returns (wb: AuditWorkbook)
    requires WellFormed(cat) && HasBenchmark(cat, session.benchmarkId)
    ensures ChecksKnown(cat, SessionResults(cat, allResults, session.id))
    ensures IsAuditReport(cat, session, auditor, SessionResults(cat, allResults, session.id), wb)
  {
    var cover := WriteAuditCover(cat, session, auditor);
    var results := SessionResults(cat, allResults, session.id);
    assert ChecksKnown(cat, results) by {
      forall i | 0 <= i < |results| ensures HasCheck(cat, results[i].checkId) {
        assert results[i] in results;
      }
    }
    var checklist := WriteAuditChecklist(cat, results);
    var summary := WriteSummary(cat, results);
    wb := AuditWorkbook(cover, checklist, summary);
  }
}
