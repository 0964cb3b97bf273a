/** The payroll export as comma-separated values, and a reader for section 2 of RFC 4180. */
module PayrollCsv {
  import opened Wrappers

  /** A cell value: the code prints null as an empty cell and everything else as its text. */
  type Cell = Option<string>

  /** One exported row. Number columns carry the text JavaScript's String() gives them. */
  datatype ExportRow = ExportRow(
    employeeNumber: Cell, employeeName: Cell, employeeId: Cell, periodStart: Cell, periodEnd: Cell, workDate: Cell,
    regularMinutes: Cell, overtimeMinutes: Cell, breakMinutes: Cell, payableMinutes: Cell,
    premiumMinutes: Cell, premiumUnits: Cell, premiumLabels: Cell, exceptionCount: Cell,
    timesheetId: Cell, timesheetStatus: Cell, entryId: Cell, entryStatus: Cell,
    attendanceRecordId: Cell, scheduleAssignmentId: Cell, shiftName: Cell,
    organizationNode: Cell, costCenter: Cell, position: Cell)

  const HEADERS: seq<string> := [
    "employee_number", "employee_name", "employee_id", "period_start", "period_end", "work_date",
    "regular_minutes", "overtime_minutes", "break_minutes", "payable_minutes",
    "premium_minutes", "premium_units", "premium_labels", "exception_count",
    "timesheet_id", "timesheet_status", "entry_id", "entry_status",
    "attendance_record_id", "schedule_assignment_id", "shift_name",
    "organization_node", "cost_center", "position"]

  function Cells(row: ExportRow): seq<Cell> {
    [row.employeeNumber, row.employeeName, row.employeeId, row.periodStart, row.periodEnd, row.workDate,
     row.regularMinutes, row.overtimeMinutes, row.breakMinutes, row.payableMinutes,
     row.premiumMinutes, row.premiumUnits, row.premiumLabels, row.exceptionCount,
     row.timesheetId, row.timesheetStatus, row.entryId, row.entryStatus,
     row.attendanceRecordId, row.scheduleAssignmentId, row.shiftName,
     row.organizationNode, row.costCenter, row.position]
  }

  // ---------------------------------------------------------------- printing

  predicate NeedsQuotes(text: string) {
    exists c | c in text :: c == '"' || c == ',' || c == '\n' || c == '\r'
  }

  function DoubleQuotes(text: string): string {
    if text == "" then ""
    else (if text[0] == '"' then "\"\"" else [text[0]]) + DoubleQuotes(text[1..])
  }

  function CsvText(text: string): string {
    if NeedsQuotes(text) then "\"" + DoubleQuotes(text) + "\"" else text
  }

  function CsvCell(value: Cell): string {
    if value.None? then "" else CsvText(value.value)
  }

  function Join(parts: seq<string>, separator: string): string {
    if parts == [] then ""
    else if |parts| == 1 then parts[0]
    else parts[0] + separator + Join(parts[1..], separator)
  }

  function Line(cells: seq<Cell>): string {
    Join(seq(|cells|, i requires 0 <= i < |cells| => CsvCell(cells[i])), ",")
  }

  function Table(rows: seq<ExportRow>): seq<seq<Cell>> {
    [seq(|HEADERS|, i requires 0 <= i < |HEADERS| => Some(HEADERS[i]))]
    + seq(|rows|, i requires 0 <= i < |rows| => Cells(rows[i]))
  }

  function PrintTable(table: seq<seq<Cell>>): string {
    Join(seq(|table|, i requires 0 <= i < |table| => Line(table[i])), "\n")
  }

  function PayrollSnapshotToCsv(rows: seq<ExportRow>): string {
    PrintTable(Table(rows))
  }

  // ---------------------------------------------------------------- reading

  /** Where the reader stands within a field: at its first character, inside plain text, inside
      quotes, or just after a quote met inside quotes. */
  datatype Mode = AtStart | Plain | Quoted | QuoteSeen

  /** Section 2 of RFC 4180, rules 1 to 7, with a line feed alone as the line break. The reader is
      strict: a quote inside a plain field, a carriage return outside quotes, text after a closing
      quote and an unclosed quote are errors (None). */
  function Read(s: string, mode: Mode, field: string, record: seq<string>, done: seq<seq<string>>): Option<seq<seq<string>>>
    decreases |s|
  {
    if s == "" then
      if mode == Quoted then None else Some(done + [record + [field]])
    else
      var c, rest := s[0], s[1..];
      match mode
      case Quoted =>
        if c == '"' then Read(rest, QuoteSeen, field, record, done)
        else Read(rest, Quoted, field + [c], record, done)
      case _ =>
        if c == ',' then Read(rest, AtStart, "", record + [field], done)
        else if c == '\n' then Read(rest, AtStart, "", [], done + [record + [field]])
        else if mode == QuoteSeen then
          if c == '"' then Read(rest, Quoted, field + [c], record, done) else None
        else if c == '\r' then None
        else if c == '"' then
          if mode == AtStart then Read(rest, Quoted, field, record, done) else None
        else Read(rest, Plain, field + [c], record, done)
  }

  function ReadCsv(s: string): Option<seq<seq<string>>> { Read(s, AtStart, "", [], []) }

  function Texts(cells: seq<Cell>): seq<string> {
    seq(|cells|, i requires 0 <= i < |cells| => cells[i].GetOr(""))
  }

  // ---------------------------------------------------------------- reading back what was printed

  /** `tail` is what follows a field: nothing, a comma or a line feed. */
  predicate EndsField(tail: string) {
    tail == "" || tail[0] == ',' || tail[0] == '\n'
  }

  /** What the reader does once a field is complete. */
  function Continue(tail: string, field: string, record: seq<string>, done: seq<seq<string>>): Option<seq<seq<string>>>
    requires EndsField(tail)
  {
    if tail == "" then Some(done + [record + [field]])
    else if tail[0] == ',' then Read(tail[1..], AtStart, "", record + [field], done)
    else Read(tail[1..], AtStart, "", [], done + [record + [field]])
  }

  lemma {:induction false} ReadPlain(text: string, tail: string, mode: Mode, field: string, record: seq<string>, done: seq<seq<string>>)
    requires !NeedsQuotes(text) && EndsField(tail) && (mode == AtStart || mode == Plain)
    ensures Read(text + tail, mode, field, record, done) == Continue(tail, field + text, record, done)
    decreases |text|
  {
    if text == "" {
      assert text + tail == tail && field + text == field;
    } else {
      assert (text + tail)[0] == text[0] && (text + tail)[1..] == text[1..] + tail;
      assert text[0] in text;
      assert forall c | c in text[1..] :: c in text;
      assert field + [text[0]] + text[1..] == field + text;
      ReadPlain(text[1..], tail, Plain, field + [text[0]], record, done);
    }
  }

  lemma {:induction false} ReadQuoted(text: string, tail: string, field: string, record: seq<string>, done: seq<seq<string>>)
    requires EndsField(tail)
    ensures Read(DoubleQuotes(text) + "\"" + tail, Quoted, field, record, done) == Continue(tail, field + text, record, done)
    decreases |text|
  {
    var s := DoubleQuotes(text) + "\"" + tail;
    if text == "" {
      assert s[0] == '"' && s[1..] == tail && field + text == field;
    } else {
      var rest := DoubleQuotes(text[1..]) + "\"" + tail;
      assert field + [text[0]] + text[1..] == field + text;
      ReadQuoted(text[1..], tail, field + [text[0]], record, done);
      if text[0] == '"' {
        assert s[0] == '"' && s[1..][0] == '"' && s[1..][1..] == rest;
      } else {
        assert s[0] == text[0] && s[1..] == rest;
      }
    }
  }

  lemma ReadQuotedCell(text: string, tail: string, record: seq<string>, done: seq<seq<string>>)
    requires EndsField(tail)
    ensures Read("\"" + DoubleQuotes(text) + "\"" + tail, AtStart, "", record, done) == Continue(tail, text, record, done)
  {
    var rest := DoubleQuotes(text) + "\"" + tail;
    var s := "\"" + DoubleQuotes(text) + "\"" + tail;
    assert s[0] == '"' && s[1..] == rest;
    assert Read(s, AtStart, "", record, done) == Read(rest, Quoted, "", record, done);
    ReadQuoted(text, tail, "", record, done);
    assert "" + text == text;
  }

  lemma ReadCell(cell: Cell, tail: string, record: seq<string>, done: seq<seq<string>>)
    requires EndsField(tail)
    ensures Read(CsvCell(cell) + tail, AtStart, "", record, done) == Continue(tail, cell.GetOr(""), record, done)
  {
    var text := cell.GetOr("");
    if NeedsQuotes(text) {
      ReadQuotedCell(text, tail, record, done);
    } else {
      ReadPlain(text, tail, AtStart, "", record, done);
      assert "" + text == text && CsvCell(cell) == text;
    }
  }

  function Printed(cells: seq<Cell>): seq<string> {
    seq(|cells|, i requires 0 <= i < |cells| => CsvCell(cells[i]))
  }

  lemma {:induction false} ReadLine(cells: seq<Cell>, tail: string, record: seq<string>, done: seq<seq<string>>)
    requires cells != [] && (tail == "" || tail[0] == '\n')
    ensures Read(Line(cells) + tail, AtStart, "", record, done)
         == if tail == "" then Some(done + [record + Texts(cells)])
            else Read(tail[1..], AtStart, "", [], done + [record + Texts(cells)])
    decreases |cells|
  {
    var head, rest := cells[0], cells[1..];
    assert Line(cells) == Join(Printed(cells), ",");
    assert Printed(cells)[1..] == Printed(rest);
    assert record + [head.GetOr("")] + Texts(rest) == record + Texts(cells);
    if rest == [] {
      assert record + [head.GetOr("")] == record + Texts(cells);
      ReadCell(head, tail, record, done);
    } else {
      var tail' := "," + Line(rest) + tail;
      assert Line(cells) + tail == CsvCell(head) + tail';
      assert tail'[1..] == Line(rest) + tail;
      ReadCell(head, tail', record, done);
      ReadLine(rest, tail, record + [head.GetOr("")], done);
    }
  }

  function TableTexts(table: seq<seq<Cell>>): seq<seq<string>> {
    seq(|table|, i requires 0 <= i < |table| => Texts(table[i]))
  }

  function Lines(table: seq<seq<Cell>>): seq<string> {
    seq(|table|, i requires 0 <= i < |table| => Line(table[i]))
  }

  lemma {:induction false} ReadTable(table: seq<seq<Cell>>, done: seq<seq<string>>)
    requires table != [] && forall i | 0 <= i < |table| :: table[i] != []
    ensures Read(PrintTable(table), AtStart, "", [], done) == Some(done + TableTexts(table))
    decreases |table|
  {
    var head, rest := table[0], table[1..];
    assert PrintTable(table) == Join(Lines(table), "\n");
    assert Lines(table)[1..] == Lines(rest);
    assert [] + Texts(head) == Texts(head);
    assert done + [Texts(head)] + TableTexts(rest) == done + TableTexts(table);
    if rest == [] {
      assert done + [Texts(head)] == done + TableTexts(table);
      assert PrintTable(table) == Line(head) + "";
      ReadLine(head, "", [], done);
    } else {
      var tail := "\n" + PrintTable(rest);
      assert PrintTable(table) == Line(head) + tail;
      assert tail[1..] == PrintTable(rest);
      ReadLine(head, tail, [], done);
      ReadTable(rest, done + [Texts(head)]);
    }
  }

  /** A row with its nulls written as empty texts: all that a printed cell can say. */
  function Normal(row: ExportRow): seq<string> { Texts(Cells(row)) }

  /** The header row and then every row's cell texts. */
  function AllTexts(rows: seq<ExportRow>): (r: seq<seq<string>>)
    ensures |r| == |rows| + 1
  {
    [HEADERS] + seq(|rows|, i requires 0 <= i < |rows| => Normal(rows[i]))
  }

  /** Reading the export back gives the header row and every cell's text, whatever quotes, commas, carriage
      returns and line feeds the cells contain. */
  lemma CsvRoundTrip(rows: seq<ExportRow>)
    ensures ReadCsv(PayrollSnapshotToCsv(rows)) == Some(AllTexts(rows))
  {
    var table := Table(rows);
    ReadTable(table, []);
    assert Texts(table[0]) == HEADERS;
    assert [] + TableTexts(table) == AllTexts(rows);
  }

  lemma RowsFromTexts(rows: seq<ExportRow>, rows': seq<ExportRow>)
    requires AllTexts(rows) == AllTexts(rows')
    ensures |rows| == |rows'| && forall i | 0 <= i < |rows| :: Normal(rows[i]) == Normal(rows'[i])
  {
    forall i | 0 <= i < |rows|
      ensures Normal(rows[i]) == Normal(rows'[i])
    {
      assert AllTexts(rows)[i + 1] == AllTexts(rows')[i + 1];
    }
  }

  /** Two exports with the same text have the same number of rows and the same cell texts. */
  lemma CsvInjective(rows: seq<ExportRow>, rows': seq<ExportRow>)
    requires PayrollSnapshotToCsv(rows) == PayrollSnapshotToCsv(rows')
    ensures |rows| == |rows'|
    ensures forall i | 0 <= i < |rows| :: Normal(rows[i]) == Normal(rows'[i])
  {
    CsvRoundTrip(rows);
    CsvRoundTrip(rows');
    RowsFromTexts(rows, rows');
  }

  /** The text a record holds under a header, by position. */
  function Column(headers: seq<string>, record: seq<string>, header: string): Option<string>
    requires |headers| == |record|
  {
    if headers == [] then None
    else if headers[0] == header then Some(record[0])
    else Column(headers[1..], record[1..], header)
  }

  /** Headers of the same length differ in one of their first two letters. */
  predicate Differ(a: string, b: string)
    requires |a| >= 2 && |b| >= 2
  {
    |a| != |b| || a[0] != b[0] || a[1] != b[1]
  }

  lemma FirstHeadersDistinct(i: nat, j: nat)
    requires i < j < 16
    ensures HEADERS[i] != HEADERS[j]
  {
    assert Differ(HEADERS[i], HEADERS[j]);
  }

  lemma LastHeadersDistinct(i: nat, j: nat)
    requires i < j < 24 && j >= 16
    ensures HEADERS[i] != HEADERS[j]
  {
    assert Differ(HEADERS[i], HEADERS[j]);
  }

  /** Looked up by header name, every exported cell is the row's own. */
  lemma LabelledCell(row: ExportRow, k: nat)
    requires k < 24
    ensures Column(HEADERS, Normal(row), HEADERS[k]) == Some(Cells(row)[k].GetOr(""))
  {
    forall i: nat | i < k
      ensures HEADERS[i] != HEADERS[k]
    {
      if k < 16 {
        FirstHeadersDistinct(i, k);
      } else {
        LastHeadersDistinct(i, k);
      }
    }
    ColumnAt(HEADERS, Normal(row), k);
  }

  lemma {:induction false} ColumnAt(headers: seq<string>, record: seq<string>, k: nat)
    requires |headers| == |record| && k < |headers|
    requires forall i | 0 <= i < k :: headers[i] != headers[k]
    ensures Column(headers, record, headers[k]) == Some(record[k])
  {
    if k > 0 {
      ColumnAt(headers[1..], record[1..], k - 1);
    }
  }

  /** Looked up by its header's name, the record read back holds the cell's text. */
  predicate Reads(row: ExportRow, header: string, cell: Cell) {
    Column(HEADERS, Normal(row), header) == Some(cell.GetOr(""))
  }

  lemma ReadsAt(row: ExportRow, k: nat)
    requires k < 24
    ensures Reads(row, HEADERS[k], Cells(row)[k])
  {
    LabelledCell(row, k);
  }

  /** Every column by its own name. */
  lemma ColumnsByName(row: ExportRow)
    ensures Reads(row, "employee_number", row.employeeNumber) && Reads(row, "employee_name", row.employeeName)
    ensures Reads(row, "employee_id", row.employeeId) && Reads(row, "period_start", row.periodStart)
    ensures Reads(row, "period_end", row.periodEnd) && Reads(row, "work_date", row.workDate)
    ensures Reads(row, "regular_minutes", row.regularMinutes) && Reads(row, "overtime_minutes", row.overtimeMinutes)
    ensures Reads(row, "break_minutes", row.breakMinutes) && Reads(row, "payable_minutes", row.payableMinutes)
    ensures Reads(row, "premium_minutes", row.premiumMinutes) && Reads(row, "premium_units", row.premiumUnits)
    ensures Reads(row, "premium_labels", row.premiumLabels) && Reads(row, "exception_count", row.exceptionCount)
    ensures Reads(row, "timesheet_id", row.timesheetId) && Reads(row, "timesheet_status", row.timesheetStatus)
    ensures Reads(row, "entry_id", row.entryId) && Reads(row, "entry_status", row.entryStatus)
    ensures Reads(row, "attendance_record_id", row.attendanceRecordId)
    ensures Reads(row, "schedule_assignment_id", row.scheduleAssignmentId) && Reads(row, "shift_name", row.shiftName)
    ensures Reads(row, "organization_node", row.organizationNode) && Reads(row, "cost_center", row.costCenter)
    ensures Reads(row, "position", row.position)
  {
    ReadsAt(row, 0); ReadsAt(row, 1); ReadsAt(row, 2); ReadsAt(row, 3); ReadsAt(row, 4); ReadsAt(row, 5);
    ReadsAt(row, 6); ReadsAt(row, 7); ReadsAt(row, 8); ReadsAt(row, 9); ReadsAt(row, 10); ReadsAt(row, 11);
    ReadsAt(row, 12); ReadsAt(row, 13); ReadsAt(row, 14); ReadsAt(row, 15); ReadsAt(row, 16); ReadsAt(row, 17);
    ReadsAt(row, 18); ReadsAt(row, 19); ReadsAt(row, 20); ReadsAt(row, 21); ReadsAt(row, 22); ReadsAt(row, 23);
  }
}
