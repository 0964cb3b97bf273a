/** What a generated, locked or exported period contains, in terms of the tables it is made from. */
module PeriodContents {
  import opened Time
  import opened Wrappers
  import opened Metrics
  import opened Punches
  import opened Reconciliation
  import opened Sums
  import opened Timesheets
  import opened PayrollPeriod

  // ---------------------------------------------------------------- whom and what a period contains

  /** The work date falls on a day from the period's first to its last. */
  predicate Within(workDate: int, start: int, end: int) {
    start - start % 86_400_000 <= workDate < end - end % 86_400_000 + 86_400_000
  }

  lemma PeriodOkExactly(start: int, end: int)
    ensures PeriodOk(start, end) <==> start - start % 86_400_000 <= end - end % 86_400_000
  {}

  lemma {:induction false} RecordIdsExactly(records: seq<Record>, e: EmployeeId, start: int, end: int, id: nat)
    ensures id in RecordIds(records, e, start, end)
       <==> id < |records| && records[id].employee == e && Within(records[id].workDate, start, end)
    decreases |records|
  {
    if records != [] {
      RecordIdsExactly(records[..|records| - 1], e, start, end, id);
    }
  }

  lemma {:induction false} PeriodShiftsExactly(shifts: seq<Shift>, e: EmployeeId, start: int, end: int, shift: Shift)
    ensures shift in PeriodShifts(shifts, e, start, end)
       <==> shift in shifts && shift.employee == e && Within(shift.workDate, start, end)
    decreases |shifts|
  {
    if shifts != [] {
      var n := |shifts| - 1;
      PeriodShiftsExactly(shifts[..n], e, start, end, shift);
      assert shifts == shifts[..n] + [shifts[n]];
    }
  }

  /** The employee has a record or a live shift in the period. */
  predicate Present(records: seq<Record>, shifts: seq<Shift>, e: EmployeeId, start: int, end: int) {
    || (exists r | r in records :: r.employee == e && Within(r.workDate, start, end))
    || (exists s | s in shifts :: s.employee == e && Within(s.workDate, start, end))
  }

  lemma OneMoreRecord(records: seq<Record>, e: EmployeeId, start: int, end: int)
    requires records != []
    ensures var n := |records| - 1;
            Present(records, [], e, start, end)
            <==> Present(records[..n], [], e, start, end) || (records[n].employee == e && Within(records[n].workDate, start, end))
  {
    assert records == records[..|records| - 1] + [records[|records| - 1]];
  }

  lemma OneMoreShift(records: seq<Record>, shifts: seq<Shift>, e: EmployeeId, start: int, end: int)
    requires shifts != []
    ensures var n := |shifts| - 1;
            Present(records, shifts, e, start, end)
            <==> Present(records, shifts[..n], e, start, end) || (shifts[n].employee == e && Within(shifts[n].workDate, start, end))
  {
    assert shifts == shifts[..|shifts| - 1] + [shifts[|shifts| - 1]];
  }

  /** A generation goes through exactly the employees in scope with a record or a shift in the period. */
  lemma {:induction false} EmployeesExactly(records: seq<Record>, shifts: seq<Shift>, start: int, end: int, scope: seq<EmployeeId>, e: EmployeeId)
    ensures e in Employees(records, shifts, start, end, scope) <==> e in scope && Present(records, shifts, e, start, end)
    decreases |shifts|, |records|
  {
    if shifts != [] {
      EmployeesExactly(records, shifts[..|shifts| - 1], start, end, scope, e);
      OneMoreShift(records, shifts, e, start, end);
    } else if records != [] {
      EmployeesExactly(records[..|records| - 1], shifts, start, end, scope, e);
      OneMoreRecord(records, e, start, end);
    }
  }

  /** Each of them once. */
  lemma {:induction false} EmployeesOnce(records: seq<Record>, shifts: seq<Shift>, start: int, end: int, scope: seq<EmployeeId>)
    ensures Distinct(Employees(records, shifts, start, end, scope))
    decreases |shifts|, |records|
  {
    if shifts != [] {
      EmployeesOnce(records, shifts[..|shifts| - 1], start, end, scope);
    } else if records != [] {
      EmployeesOnce(records[..|records| - 1], shifts, start, end, scope);
    }
  }

  /** The timesheet of an employee for a period: from its first day's start to its last day's last millisecond. */
  function SheetKey(e: EmployeeId, start: int, end: int): Key {
    Key(e, start - start % 86_400_000, end - end % 86_400_000 + 86_399_999)
  }

  predicate IsFinal(sheets: map<Key, Sheet>, key: Key) {
    key in sheets && (sheets[key].status == Approved || sheets[key].status == Locked)
  }

  /** The loop gets through the employees before the first one with a final timesheet, so through all of
      them if and only if there is none. */
  lemma {:induction false} ReachedExactly(b: Book, es: seq<EmployeeId>, start: int, end: int)
    ensures var n := Reached(b, es, start, end);
            && n <= |es|
            && (forall j | 0 <= j < n :: !IsFinal(b.sheets, SheetKey(es[j], start, end)))
            && (n < |es| ==> IsFinal(b.sheets, SheetKey(es[n], start, end)))
    decreases |es|
  {
    if es != [] && CanGenerate(b, Key(es[0], StartOfDay(start), EndOfDay(end))) {
      ReachedExactly(b, es[1..], start, end);
      assert forall j | 1 <= j < |es| :: es[1..][j - 1] == es[j];
    }
  }

  // ---------------------------------------------------------------- what is reported

  /** A record's minutes, if it is the employee's and of the period. */
  function PeriodMinutes(e: EmployeeId, start: int, end: int, w: Measure): Record -> nat {
    (r: Record) =>
      if r.employee != e || !Within(r.workDate, start, end) then 0
      else match w
        case ActualTime => r.minutes.actual
        case PayableTime => r.minutes.payable
        case OvertimeTime => r.minutes.overtime
  }

  lemma LastId(records: seq<Record>, n: nat, e: EmployeeId, start: int, end: int)
    requires n < |records|
    ensures RecordIds(records[..n + 1], e, start, end)
         == RecordIds(records[..n], e, start, end)
            + (if records[n].employee == e && InPeriod(records[n].workDate, start, end) then [n] else [])
  {
    assert records[..n + 1][..n] == records[..n];
  }

  lemma LastIdSum(records: seq<Record>, n: nat, e: EmployeeId, start: int, end: int, i: Input, w: Measure)
    requires n < |records| && i.records == records
    ensures Sum(RecordIds(records[..n + 1], e, start, end), RecordMinutes(i, w))
         == Sum(RecordIds(records[..n], e, start, end), RecordMinutes(i, w)) + PeriodMinutes(e, start, end, w)(records[n])
  {
    var ids := RecordIds(records[..n], e, start, end);
    LastId(records, n, e, start, end);
    if records[n].employee == e && InPeriod(records[n].workDate, start, end) {
      SumAppend(ids, n, RecordMinutes(i, w));
    } else {
      assert ids + [] == ids;
    }
  }

  lemma LastRecordSum(records: seq<Record>, n: nat, weight: Record -> nat)
    requires n < |records|
    ensures Sum(records[..n + 1], weight) == Sum(records[..n], weight) + weight(records[n])
  {
    assert records[..n + 1] == records[..n] + [records[n]];
    SumAppend(records[..n], records[n], weight);
  }

  lemma {:induction false} IdsSum(records: seq<Record>, n: nat, e: EmployeeId, start: int, end: int, i: Input, w: Measure)
    requires n <= |records| && i.records == records
    ensures Sum(RecordIds(records[..n], e, start, end), RecordMinutes(i, w)) == Sum(records[..n], PeriodMinutes(e, start, end, w))
    decreases n
  {
    if n == 0 {
      assert records[..0] == [];
    } else {
      var m: nat := n - 1;
      IdsSum(records, m, e, start, end, i, w);
      LastIdSum(records, m, e, start, end, i, w);
      LastRecordSum(records, m, PeriodMinutes(e, start, end, w));
    }
  }

  /** The employee's timesheet is a draft; its entries and the dropped records together have the minutes of
      all records of the employee on the period's days, and besides only those of entries of earlier
      generations that no slot takes over: none, if it is the period's first timesheet. */
  ghost predicate ReportsRecords(p: Payroll, sheets: map<Key, Sheet>, start: int, end: int, e: EmployeeId, w: Measure) {
    var i, key := InputFor(p.records, p.shifts, e, start, end), SheetKey(e, start, end);
    && key in sheets && sheets[key].status == Draft
    && Sum(sheets[key].entries, EntryMinutes(w)) + Sum(i.ids, DroppedMinutes(i, w))
       == Sum(p.records, PeriodMinutes(e, start, end, w)) + LeftOverMinutes(DraftOf(p.book.sheets, key).entries, i, w)
    && (key !in p.book.sheets ==> LeftOverMinutes(DraftOf(p.book.sheets, key).entries, i, w) == 0)
  }

  lemma KeyIs(records: seq<Record>, shifts: seq<Shift>, e: EmployeeId, start: int, end: int)
    ensures InputFor(records, shifts, e, start, end).key == SheetKey(e, start, end)
  {}

  lemma AllIdsSum(records: seq<Record>, shifts: seq<Shift>, e: EmployeeId, start: int, end: int, w: Measure)
    ensures var i := InputFor(records, shifts, e, start, end);
            Sum(i.ids, RecordMinutes(i, w)) == Sum(records, PeriodMinutes(e, start, end, w))
  {
    IdsSum(records, |records|, e, start, end, InputFor(records, shifts, e, start, end), w);
    assert records[..|records|] == records;
  }

  lemma AllRecordsReported(p: Payroll, sheets: map<Key, Sheet>, start: int, end: int, e: EmployeeId, w: Measure)
    requires var i := InputFor(p.records, p.shifts, e, start, end);
             && Reports(sheets, DraftOf(p.book.sheets, i.key).entries, i, w)
             && (i.key !in p.book.sheets ==> LeftOverMinutes(DraftOf(p.book.sheets, i.key).entries, i, w) == 0)
    ensures ReportsRecords(p, sheets, start, end, e, w)
  {
    KeyIs(p.records, p.shifts, e, start, end);
    AllIdsSum(p.records, p.shifts, e, start, end, w);
  }

  /** After generating a period, that holds of every employee the loop gets through. */
  lemma GenerationReportsRecords(p: Payroll, start: int, end: int, scope: seq<EmployeeId>, j: nat, w: Measure)
    requires DistinctShifts(p.shifts) && PeriodOk(start, end)
    requires j < Reached(p.book, Employees(p.records, p.shifts, start, end, scope), start, end)
    ensures ReportsRecords(p, Step(p, DoGenerate(start, end, scope)).book.sheets, start, end,
                           Employees(p.records, p.shifts, start, end, scope)[j], w)
  {
    var e := Employees(p.records, p.shifts, start, end, scope)[j];
    GenerationReportsThePeriod(p, start, end, scope, j, w);
    AllRecordsReported(p, Step(p, DoGenerate(start, end, scope)).book.sheets, start, end, e, w);
  }

  /** So if nobody's timesheet is final, it holds of everybody in scope with a record or a shift in the period. */
  lemma EveryoneIsReported(p: Payroll, start: int, end: int, scope: seq<EmployeeId>, e: EmployeeId, w: Measure)
    requires DistinctShifts(p.shifts) && PeriodOk(start, end)
    requires forall x | x in scope && Present(p.records, p.shifts, x, start, end) :: !IsFinal(p.book.sheets, SheetKey(x, start, end))
    requires e in scope && Present(p.records, p.shifts, e, start, end)
    ensures ReportsRecords(p, Step(p, DoGenerate(start, end, scope)).book.sheets, start, end, e, w)
  {
    var es := Employees(p.records, p.shifts, start, end, scope);
    var n := Reached(p.book, es, start, end);
    ReachedExactly(p.book, es, start, end);
    if n < |es| {
      EmployeesExactly(p.records, p.shifts, start, end, scope, es[n]);
      assert false;
    }
    EmployeesExactly(p.records, p.shifts, start, end, scope, e);
    var j: nat :| j < |es| && es[j] == e;
    GenerationReportsRecords(p, start, end, scope, j, w);
  }

  // ---------------------------------------------------------------- which timesheets a lock or an export lists

  lemma NextKeys(sheets: map<Key, Sheet>, start: int, end: int, scope: seq<EmployeeId>, n: nat)
    requires |scope| == n + 1
    ensures FoundKeys(sheets, start, end, scope)
         == FoundKeys(sheets, start, end, scope[..n])
            + (if SheetKey(scope[n], start, end) in sheets then [SheetKey(scope[n], start, end)] else [])
  {}

  /** Exactly the stored timesheets of that very period whose employee is in scope. */
  lemma {:induction false} FoundKeysExactly(sheets: map<Key, Sheet>, start: int, end: int, scope: seq<EmployeeId>, key: Key)
    ensures key in FoundKeys(sheets, start, end, scope)
       <==> key in sheets && key.employee in scope && key == SheetKey(key.employee, start, end)
    decreases |scope|
  {
    if scope != [] {
      var n: nat := |scope| - 1;
      FoundKeysExactly(sheets, start, end, scope[..n], key);
      NextKeys(sheets, start, end, scope, n);
      assert key.employee in scope <==> key.employee in scope[..n] || key.employee == scope[n];
    }
  }

  /** Each of them once, if the scope lists nobody twice. */
  lemma {:induction false} FoundKeysOnce(sheets: map<Key, Sheet>, start: int, end: int, scope: seq<EmployeeId>)
    requires Distinct(scope)
    ensures forall j, k | 0 <= j < k < |FoundKeys(sheets, start, end, scope)| ::
              FoundKeys(sheets, start, end, scope)[j] != FoundKeys(sheets, start, end, scope)[k]
    decreases |scope|
  {
    if scope != [] {
      var n := |scope| - 1;
      FoundKeysOnce(sheets, start, end, scope[..n]);
      FoundKeysExactly(sheets, start, end, scope[..n], SheetKey(scope[n], start, end));
    }
  }

  predicate SomeListed(sheets: map<Key, Sheet>, start: int, end: int, scope: seq<EmployeeId>) {
    exists e | e in scope :: SheetKey(e, start, end) in sheets
  }

  lemma SomeListedExactly(sheets: map<Key, Sheet>, start: int, end: int, scope: seq<EmployeeId>)
    ensures SomeListed(sheets, start, end, scope) <==> FoundKeys(sheets, start, end, scope) != []
  {
    var keys := FoundKeys(sheets, start, end, scope);
    if keys != [] {
      assert keys[0] in keys;
      FoundKeysExactly(sheets, start, end, scope, keys[0]);
    }
    forall e | e in scope && SheetKey(e, start, end) in sheets
      ensures keys != []
    {
      FoundKeysExactly(sheets, start, end, scope, SheetKey(e, start, end));
    }
  }

  /** A period can be locked if and only if it has a timesheet in scope and all of those are approved or
      locked, and exported if and only if all of them are locked. */
  lemma CanLockExactly(sheets: map<Key, Sheet>, start: int, end: int, scope: seq<EmployeeId>)
    ensures CanLock(sheets, start, end, scope)
       <==> && start - start % 86_400_000 <= end - end % 86_400_000 && SomeListed(sheets, start, end, scope)
            && forall e | e in scope && SheetKey(e, start, end) in sheets :: IsFinal(sheets, SheetKey(e, start, end))
    ensures CanExport(sheets, start, end, scope)
       <==> && start - start % 86_400_000 <= end - end % 86_400_000 && SomeListed(sheets, start, end, scope)
            && forall e | e in scope && SheetKey(e, start, end) in sheets :: sheets[SheetKey(e, start, end)].status == Locked
  {
    SomeListedExactly(sheets, start, end, scope);
    forall key
      ensures key in FoundKeys(sheets, start, end, scope)
         <==> key in sheets && key.employee in scope && key == SheetKey(key.employee, start, end)
    {
      FoundKeysExactly(sheets, start, end, scope, key);
    }
  }

  // ---------------------------------------------------------------- what a ledger row and a timesheet total

  datatype Column = OvertimeColumn | PayableColumn | BreakColumn | ExceptionColumn

  function ColumnOf(c: Column): Entry -> nat {
    (e: Entry) =>
      match c
      case OvertimeColumn => e.overtime
      case PayableColumn => e.payable
      case BreakColumn => e.breaks
      case ExceptionColumn => e.exceptions
  }

  function EntryCount(sheets: map<Key, Sheet>): Key -> nat {
    (k: Key) => if k in sheets then |sheets[k].entries| else 0
  }

  function SheetSum(sheets: map<Key, Sheet>, weight: Entry -> nat): Key -> nat {
    (k: Key) => if k in sheets then Sum(sheets[k].entries, weight) else 0
  }

  lemma {:induction false} RowsSum(sheets: map<Key, Sheet>, keys: seq<Key>, weight: Entry -> nat)
    requires forall k | k in keys :: k in sheets
    ensures Sum(Rows(sheets, keys), weight) == Sum(keys, SheetSum(sheets, weight))
    ensures |Rows(sheets, keys)| == Sum(keys, EntryCount(sheets))
    decreases |keys|
  {
    if keys != [] {
      var n := |keys| - 1;
      RowsSum(sheets, keys[..n], weight);
      SumConcat(Rows(sheets, keys[..n]), sheets[keys[n]].entries, weight);
    }
  }

  /** The totals are those of the entries of the listed timesheets, column by column. */
  ghost predicate TotalsReport(t: ExportTotals, sheets: map<Key, Sheet>, keys: seq<Key>) {
    && t.rowCount == Sum(keys, EntryCount(sheets))
    && t.overtime == Sum(keys, SheetSum(sheets, ColumnOf(OvertimeColumn)))
    && t.gross == Sum(keys, SheetSum(sheets, ColumnOf(PayableColumn)))
    && t.breaks == Sum(keys, SheetSum(sheets, ColumnOf(BreakColumn)))
    && t.exceptions == Sum(keys, SheetSum(sheets, ColumnOf(ExceptionColumn)))
    && t.regular == t.gross - t.overtime
  }

  lemma ColumnsAgree(rows: seq<Entry>)
    ensures Sum(rows, Overtime()) == Sum(rows, ColumnOf(OvertimeColumn)) && Sum(rows, Payable()) == Sum(rows, ColumnOf(PayableColumn))
    ensures Sum(rows, Breaks()) == Sum(rows, ColumnOf(BreakColumn)) && Sum(rows, Exceptions()) == Sum(rows, ColumnOf(ExceptionColumn))
  {
    SumSame(rows, Overtime(), ColumnOf(OvertimeColumn));
    SumSame(rows, Payable(), ColumnOf(PayableColumn));
    SumSame(rows, Breaks(), ColumnOf(BreakColumn));
    SumSame(rows, Exceptions(), ColumnOf(ExceptionColumn));
  }

  lemma SnapshotReports(sheets: map<Key, Sheet>, keys: seq<Key>)
    requires SheetsOk(sheets) && forall k | k in keys :: k in sheets
    ensures TotalsReport(Snapshot(sheets, keys), sheets, keys)
  {
    RowsOk(sheets, keys);
    RegularPlusOvertime(Rows(sheets, keys));
    ColumnsAgree(Rows(sheets, keys));
    RowsSum(sheets, keys, ColumnOf(OvertimeColumn));
    RowsSum(sheets, keys, ColumnOf(PayableColumn));
    RowsSum(sheets, keys, ColumnOf(BreakColumn));
    RowsSum(sheets, keys, ColumnOf(ExceptionColumn));
  }

  /** In every run, a lock or an export that succeeds appends one ledger row for its period, whose totals are
      those of the entries of the listed timesheets. */
  lemma LedgerReports(ops: seq<Op>, op: Op)
    requires op.DoLock? || op.DoExport?
    requires Succeeds(Run(EMPTY, ops), op)
    ensures var p, p' := Run(EMPTY, ops), Step(Run(EMPTY, ops), op);
            && |p'.ledger| == |p.ledger| + 1 && p'.ledger[..|p.ledger|] == p.ledger
            && var row := p'.ledger[|p.ledger|];
               && row.kind == (if op.DoLock? then LockLedger else CsvLedger) && row.start == op.start && row.end == op.end
               && row.keys == FoundKeys(p.book.sheets, op.start, op.end, op.scope)
               && TotalsReport(row.totals, p'.book.sheets, row.keys)
  {
    var p := Run(EMPTY, ops);
    RunKeepsInv(ops);
    StepKeepsInv(p, op);
    SnapshotReports(Step(p, op).book.sheets, FoundKeys(p.book.sheets, op.start, op.end, op.scope));
  }

  /** In every run, a stored timesheet's totals are those of its entries, column by column. */
  lemma SheetTotalsReport(ops: seq<Op>, key: Key)
    requires key in Run(EMPTY, ops).book.sheets
    ensures var s := Run(EMPTY, ops).book.sheets[key];
            && s.totals.overtime == Sum(s.entries, ColumnOf(OvertimeColumn))
            && s.totals.regular == Sum(s.entries, ColumnOf(PayableColumn)) - s.totals.overtime
            && s.totals.breaks == Sum(s.entries, ColumnOf(BreakColumn))
            && s.totals.exceptions == Sum(s.entries, ColumnOf(ExceptionColumn))
  {
    AmountsAddUp(ops, key, []);
    ColumnsAgree(Run(EMPTY, ops).book.sheets[key].entries);
  }

  // ---------------------------------------------------------------- which statuses a step may set

  /** Same totals and entries, except for the status of the entries. */
  predicate SameAmounts(s: Sheet, t: Sheet) {
    && s.totals == t.totals && |s.entries| == |t.entries|
    && forall k | 0 <= k < |s.entries| :: t.entries[k] == s.entries[k].(status := t.entries[k].status)
  }

  /** The status of a stored timesheet after a step that is not a generation, and its amounts stay. */
  lemma StatusAfter(p: Payroll, op: Op, key: Key)
    requires key in p.book.sheets && !op.DoGenerate?
    ensures key in Step(p, op).book.sheets
    ensures var s, t := p.book.sheets[key], Step(p, op).book.sheets[key];
            && SameAmounts(s, t)
            && t.status ==
                 (if op.DoSubmit? && op.key == key && !IsFinal(p.book.sheets, key) then Submitted
                  else if op.DoDecide? && op.key == key && op.status in {Approved, Rejected, Locked, Reopened} then op.status
                  else if op.DoLock? && CanLock(p.book.sheets, op.start, op.end, op.scope)
                         && key.employee in op.scope && key == SheetKey(key.employee, op.start, op.end) then Locked
                  else s.status)
            && (op.DoLock? && s.status == Approved && t.status == Locked ==> forall k | 0 <= k < |t.entries| :: t.entries[k].status == LockedEntry)
            && (!op.DoLock? || s.status == t.status ==> t.entries == s.entries)
  {
    if op.DoLock? {
      FoundKeysExactly(p.book.sheets, op.start, op.end, op.scope, key);
    }
  }

  /** A generation turns the timesheets it gets through into drafts and leaves all others as they are. */
  lemma StatusAfterGeneration(p: Payroll, start: int, end: int, scope: seq<EmployeeId>, key: Key)
    requires DistinctShifts(p.shifts) && key in p.book.sheets
    ensures var es, p' := Employees(p.records, p.shifts, start, end, scope), Step(p, DoGenerate(start, end, scope));
            var through := exists j: nat | j < Reached(p.book, es, start, end) :: key == SheetKey(es[j], start, end);
            && key in p'.book.sheets
            && (PeriodOk(start, end) && through ==> p'.book.sheets[key].status == Draft && !IsFinal(p.book.sheets, key))
            && (!PeriodOk(start, end) || !through ==> p'.book.sheets[key] == p.book.sheets[key])
  {
    var es := Employees(p.records, p.shifts, start, end, scope);
    ReachedExactly(p.book, es, start, end);
    if j: nat :| j < Reached(p.book, es, start, end) && key == SheetKey(es[j], start, end) {
      if PeriodOk(start, end) {
        GenerationReportsRecords(p, start, end, scope, j, PayableTime);
      }
    } else {
      OthersAreLeftAlone(p.book, p.records, p.shifts, es, start, end, key);
    }
  }
}
