/** Payroll periods as one machine: everything that writes records, timesheets and the export ledger. */
module PayrollPeriod {
  import opened Time
  import opened Wrappers
  import opened Metrics
  import opened Punches
  import opened Reconciliation
  import opened Sums
  import opened Timesheets

  datatype LedgerKind = LockLedger | CsvLedger

  datatype ExportTotals = ExportTotals(
    rowCount: nat, regular: nat, overtime: nat, breaks: nat, gross: nat, exceptions: nat)

  datatype LedgerRow = LedgerRow(kind: LedgerKind, start: int, end: int, keys: seq<Key>, totals: ExportTotals)

  datatype Payroll = Payroll(records: seq<Record>, shifts: seq<Shift>, book: Book, ledger: seq<LedgerRow>)

  /** A manual edit, or a correction request being applied: both write the same columns under the same
      guards. `shift` is the resolved schedule assignment, `blocked` the policy rules on source and place. */
  datatype Adjustment = Adjustment(
    recordId: Option<nat>, employee: EmployeeId, shift: Option<Shift>, workDate: int,
    clockIn: Option<int>, clockOut: Option<int>, breakMinutes: nat,
    reasonGiven: bool, policy: Policy, now: int, blocked: bool)

  datatype Op =
    | DoPunch(req: Request)
    | DoAdjust(a: Adjustment)
    | DoReconcile(q: Query, dryRun: bool)
    | ScheduleChanged(shifts: seq<Shift>)
    | ExceptionsChanged(exceptions: seq<ExceptionRow>)
    | DoGenerate(start: int, end: int, scope: seq<EmployeeId>)
    | DoSubmit(key: Key)
    | DoDecide(key: Key, status: SheetStatus)
    | DoLock(start: int, end: int, scope: seq<EmployeeId>)
    | DoExport(start: int, end: int, scope: seq<EmployeeId>)

  // ---------------------------------------------------------------- manual edits

  function FindRecord(records: seq<Record>, e: EmployeeId, shift: Option<Shift>, workDate: int): Option<nat> {
    if records == [] then None
    else
      var n := |records| - 1;
      var r := FindRecord(records[..n], e, shift, workDate);
      if r.Some? then r
      else if records[n].employee == e
              && (if shift.Some? then records[n].shift.Some? && records[n].shift.value.id == shift.value.id
                  else records[n].workDate == workDate)
      then Some(n) else None
  }

  function Existing(records: seq<Record>, a: Adjustment): (r: Option<nat>)
    ensures r.Some? ==> r.value < |records|
  {
    if a.recordId.Some? then
      if a.recordId.value < |records| && records[a.recordId.value].employee == a.employee then a.recordId else None
    else
      FindRecordInRange(records, a.employee, a.shift, StartOfDay(a.workDate));
      FindRecord(records, a.employee, a.shift, StartOfDay(a.workDate))
  }

  lemma {:induction false} FindRecordInRange(records: seq<Record>, e: EmployeeId, shift: Option<Shift>, workDate: int)
    ensures var r := FindRecord(records, e, shift, workDate); r.Some? ==> r.value < |records|
  {
    if records != [] {
      FindRecordInRange(records[..|records| - 1], e, shift, workDate);
    }
  }

  /** No approved or locked timesheet has an entry for the record. */
  predicate Writable(sheets: map<Key, Sheet>, id: nat) {
    forall key | key in sheets && Final(sheets[key].status) ::
      forall k | 0 <= k < |sheets[key].entries| :: sheets[key].entries[k].record != Some(id)
  }

  predicate AdjustAllowed(records: seq<Record>, sheets: map<Key, Sheet>, a: Adjustment) {
    var existing := Existing(records, a);
    && (a.recordId.Some? ==> existing.Some?)
    && (a.clockIn.Some? && a.clockOut.Some? ==>
          a.clockIn.value < a.clockOut.value && DurationMinutes(a.clockIn.value, a.clockOut.value, 0) <= a.policy.maxShift)
    && (a.clockIn.Some? ==> a.clockIn.value <= a.now + 15 * MINUTE)
    && (a.clockOut.Some? ==> a.clockOut.value <= a.now + 15 * MINUTE)
    && !a.blocked
    && (existing.Some? ==> a.reasonGiven && Writable(sheets, existing.value))
  }

  function CloseBreaks(breaks: seq<Break>, at: int): seq<Break> {
    seq(|breaks|, i requires 0 <= i < |breaks| =>
      if breaks[i].endedAt.Some? then breaks[i]
      else Break(breaks[i].startedAt, Some(at), DurationMinutes(breaks[i].startedAt, at, 0)))
  }

  function AdjustedRecord(a: Adjustment, breaks: seq<Break>, punches: seq<Punch>): Record {
    Record(a.employee, a.shift, a.policy, StartOfDay(a.workDate),
           if a.shift.Some? then Some(a.shift.value.startsAt) else None,
           if a.shift.Some? then Some(a.shift.value.endsAt) else None,
           a.clockIn, a.clockOut, a.clockIn, if a.clockOut.Some? then a.clockOut else a.clockIn,
           CalculateMetrics(a.policy, a.shift, None, None, a.clockIn, a.clockOut, a.breakMinutes),
           if a.clockOut.Some? then Completed else Open,
           if a.clockOut.Some? then CloseBreaks(breaks, a.clockOut.value) else breaks,
           punches)
  }

  function Adjust(records: seq<Record>, sheets: map<Key, Sheet>, a: Adjustment): seq<Record> {
    var existing := Existing(records, a);
    if !AdjustAllowed(records, sheets, a) then records
    else if existing.Some? then
      var r := records[existing.value];
      records[existing.value := AdjustedRecord(a, r.breaks, r.punches)]
    else records + [AdjustedRecord(a, [], [])]
  }

  /** When an edit is accepted: the record it names is the employee's, the clock-out is after the clock-in and
      within the longest shift, neither is more than a quarter of an hour ahead, no policy rule blocks it, and
      an existing record is changed with a reason and only while no final timesheet lists it. */
  lemma EditsExactly(records: seq<Record>, sheets: map<Key, Sheet>, a: Adjustment)
    ensures AdjustAllowed(records, sheets, a) <==>
              && (a.recordId.Some? ==> a.recordId.value < |records| && records[a.recordId.value].employee == a.employee)
              && (a.clockIn.Some? && a.clockOut.Some? ==>
                    && a.clockIn.value < a.clockOut.value
                    && 2 * (a.clockOut.value - a.clockIn.value) < (2 * a.policy.maxShift + 1) * 60_000)
              && (a.clockIn.Some? ==> a.clockIn.value - a.now <= 900_000)
              && (a.clockOut.Some? ==> a.clockOut.value - a.now <= 900_000)
              && !a.blocked
              && (Existing(records, a).Some? ==>
                    && a.reasonGiven
                    && forall key, k | key in sheets && 0 <= k < |sheets[key].entries| && sheets[key].entries[k].record == Existing(records, a) ::
                         sheets[key].status != Approved && sheets[key].status != Locked)
  {}

  /** Which record an edit rewrites: the one it names, or else the employee's first one for the shift, or,
      without a shift, for the day. */
  lemma {:induction false} FoundRecordExactly(records: seq<Record>, e: EmployeeId, shift: Option<Shift>, workDate: int)
    ensures var r := FindRecord(records, e, shift, workDate);
            && (r.Some? ==> r.value < |records| && IsRecordOf(records[r.value], e, shift, workDate)
                            && forall i | 0 <= i < r.value :: !IsRecordOf(records[i], e, shift, workDate))
            && (r.None? ==> forall i | 0 <= i < |records| :: !IsRecordOf(records[i], e, shift, workDate))
  {
    if records != [] {
      FoundRecordExactly(records[..|records| - 1], e, shift, workDate);
    }
  }

  predicate IsRecordOf(r: Record, e: EmployeeId, shift: Option<Shift>, workDate: int) {
    && r.employee == e
    && (shift.Some? ==> r.shift.Some? && r.shift.value.id == shift.value.id)
    && (shift.None? ==> r.workDate == workDate)
  }

  /** What an accepted edit stores: the given times, day, shift and break in the one record it concerns, with
      the columns they amount to; a clock-out completes the record and ends its open breaks. */
  lemma EditStores(records: seq<Record>, sheets: map<Key, Sheet>, a: Adjustment)
    requires AdjustAllowed(records, sheets, a)
    ensures var after, id := Adjust(records, sheets, a), Existing(records, a).GetOr(|records|);
            && |after| == (if id < |records| then |records| else |records| + 1)
            && (forall i | 0 <= i < |records| && i != id :: after[i] == records[i])
            && var r := after[id];
               && r.employee == a.employee && r.shift == a.shift && r.policy == a.policy
               && r.workDate == a.workDate - a.workDate % 86_400_000
               && r.clockIn == a.clockIn && r.clockOut == a.clockOut && r.firstPunch == a.clockIn
               && (a.clockOut.Some? ==> r.lastPunch == a.clockOut && r.status == Completed)
               && (a.clockOut.None? ==> r.lastPunch == a.clockIn && r.status == Open)
               && (a.shift.Some? ==> r.scheduledStart == Some(a.shift.value.startsAt) && r.scheduledEnd == Some(a.shift.value.endsAt))
               && (a.shift.None? ==> r.scheduledStart.None? && r.scheduledEnd.None? && r.minutes.scheduled == 0)
               && r.punches == (if id < |records| then records[id].punches else [])
  {}

  lemma EditPays(records: seq<Record>, sheets: map<Key, Sheet>, a: Adjustment)
    requires AdjustAllowed(records, sheets, a)
    ensures var m := Adjust(records, sheets, a)[Existing(records, a).GetOr(|records|)].minutes;
            && m.breaks == a.breakMinutes
            && (if a.clockIn.Some? && a.clockOut.Some? then MinutesBeyond(a.clockOut.value - a.clockIn.value, 0, m.actual) else m.actual == 0)
            && PaidFor(if m.actual > m.breaks then m.actual - m.breaks else 0, a.policy,
                       if a.policy.dailyOvertime.Some? then a.policy.dailyOvertime.value else m.scheduled, m.payable, m.overtime)
            && (a.shift.Some? ==>
                  && MinutesBeyond(a.shift.value.endsAt - a.shift.value.startsAt, a.shift.value.breakMinutes, m.scheduled)
                  && (a.clockIn.Some? ==> MinutesBeyond(a.clockIn.value - a.shift.value.startsAt, a.policy.graceLate, m.late))
                  && (a.clockOut.Some? ==> MinutesBeyond(a.shift.value.endsAt - a.clockOut.value, a.policy.graceEarlyLeave, m.earlyLeave)))
  {
    MetricsColumns(a.policy, a.shift, None, None, a.clockIn, a.clockOut, a.breakMinutes);
  }

  lemma EditEndsBreaks(records: seq<Record>, sheets: map<Key, Sheet>, a: Adjustment, k: nat)
    requires AdjustAllowed(records, sheets, a) && Existing(records, a).Some?
    requires k < |records[Existing(records, a).value].breaks|
    ensures var id := Existing(records, a).value;
            var was, now := records[id].breaks, Adjust(records, sheets, a)[id].breaks;
            && |now| == |was|
            && (was[k].endedAt.Some? || a.clockOut.None? ==> now[k] == was[k])
            && (was[k].endedAt.None? && a.clockOut.Some? ==>
                  && now[k].startedAt == was[k].startedAt && now[k].endedAt == a.clockOut
                  && MinutesBeyond(a.clockOut.value - was[k].startedAt, 0, now[k].minutes))
  {
    if a.clockOut.Some? {
      DurationIsBeyond(records[Existing(records, a).value].breaks[k].startedAt, a.clockOut.value, 0);
    }
  }

  /** An accepted edit keeps at most one open record per employee if and only if it gives a clock-out or
      every open record of the employee is the one it rewrites. */
  lemma AdjustKeepsOneOpenExactly(records: seq<Record>, sheets: map<Key, Sheet>, a: Adjustment)
    requires OneOpenRecord(records) && AdjustAllowed(records, sheets, a)
    ensures OneOpenRecord(Adjust(records, sheets, a)) <==>
              || a.clockOut.Some?
              || forall j | 0 <= j < |records| && records[j].employee == a.employee && records[j].status == Open ::
                   Existing(records, a) == Some(j)
  {
    var after, id := Adjust(records, sheets, a), Existing(records, a).GetOr(|records|);
    assert after[id].employee == a.employee && (after[id].status == Open <==> a.clockOut.None?);
    assert forall j | 0 <= j < |records| && j != id :: after[j] == records[j];
  }

  /** The second open record is real: a day's record without a clock-out, entered by hand while another
      day's record is still open. */
  lemma ManualRecordOpensSecond() returns (records: seq<Record>, a: Adjustment)
    ensures OneOpenRecord(records) && AdjustAllowed(records, map[], a)
    ensures !OneOpenRecord(Adjust(records, map[], a))
  {
    var policy := Policy(0, 0, None, None, 960, false, 0);
    records := [Record(0, None, policy, 0, None, None, Some(0), None, Some(0), Some(0), Minutes(0, 0, 0, 0, 0, 0, 0), Open, [], [])];
    a := Adjustment(None, 0, None, DAY, Some(DAY), None, 0, false, policy, DAY, false);
    assert FindRecord([], 0, None, DAY) == None && records[..0] == [];
    assert Existing(records, a) == None;
    AdjustKeepsOneOpenExactly(records, map[], a);
  }

  // ---------------------------------------------------------------- generating a period

  predicate InPeriod(workDate: int, start: int, end: int) { StartOfDay(start) <= workDate <= EndOfDay(end) }

  function RecordIds(records: seq<Record>, e: EmployeeId, start: int, end: int): seq<nat> {
    if records == [] then []
    else
      var n := |records| - 1;
      RecordIds(records[..n], e, start, end)
      + (if records[n].employee == e && InPeriod(records[n].workDate, start, end) then [n] else [])
  }

  function PeriodShifts(shifts: seq<Shift>, e: EmployeeId, start: int, end: int): seq<Shift> {
    if shifts == [] then []
    else
      var n := |shifts| - 1;
      PeriodShifts(shifts[..n], e, start, end)
      + (if shifts[n].employee == e && InPeriod(shifts[n].workDate, start, end) then [shifts[n]] else [])
  }

  function InputFor(records: seq<Record>, shifts: seq<Shift>, e: EmployeeId, start: int, end: int): Input {
    Input(Key(e, StartOfDay(start), EndOfDay(end)), records, RecordIds(records, e, start, end), PeriodShifts(shifts, e, start, end))
  }

  function AddNew(es: seq<EmployeeId>, e: EmployeeId): seq<EmployeeId> { if e in es then es else es + [e] }

  /** The employees of the period in order of first appearance: records first, then shifts. */
  function Employees(records: seq<Record>, shifts: seq<Shift>, start: int, end: int, scope: seq<EmployeeId>): seq<EmployeeId>
    decreases |shifts|, |records|
  {
    if shifts != [] then
      var last := shifts[|shifts| - 1];
      var es := Employees(records, shifts[..|shifts| - 1], start, end, scope);
      if last.employee in scope && InPeriod(last.workDate, start, end) then AddNew(es, last.employee) else es
    else if records != [] then
      var last := records[|records| - 1];
      var es := Employees(records[..|records| - 1], shifts, start, end, scope);
      if last.employee in scope && InPeriod(last.workDate, start, end) then AddNew(es, last.employee) else es
    else []
  }

  /** One transaction per employee; the first finalized timesheet stops the run, what was committed stays. */
  function GenerateEach(b: Book, records: seq<Record>, shifts: seq<Shift>, es: seq<EmployeeId>, start: int, end: int): Book
    decreases |es|
  {
    if es == [] then b
    else
      var i := InputFor(records, shifts, es[0], start, end);
      if !CanGenerate(b, i.key) then b
      else GenerateEach(Generate(b, i), records, shifts, es[1..], start, end)
  }

  /** How many employees the loop gets through: those before the first finalized timesheet. */
  function Reached(b: Book, es: seq<EmployeeId>, start: int, end: int): (n: nat)
    ensures n <= |es|
  {
    if es == [] || !CanGenerate(b, Key(es[0], StartOfDay(start), EndOfDay(end))) then 0
    else 1 + Reached(b, es[1..], start, end)
  }

  /** Generating one timesheet finalizes none, and reopens none that is final. */
  lemma {:induction false} GenerateKeepsReached(b: Book, i: Input, es: seq<EmployeeId>, start: int, end: int)
    ensures Reached(Generate(b, i), es, start, end) == Reached(b, es, start, end)
    decreases |es|
  {
    if es != [] {
      GenerateKeepsReached(b, i, es[1..], start, end);
    }
  }

  /** One round of the loop. */
  lemma NextEmployee(b: Book, records: seq<Record>, shifts: seq<Shift>, es: seq<EmployeeId>, n: nat, start: int, end: int)
    requires n < |es|
    ensures var i := InputFor(records, shifts, es[n], start, end);
            if CanGenerate(b, i.key) then
              && GenerateEach(b, records, shifts, es[n..], start, end)
                 == GenerateEach(Generate(b, i), records, shifts, es[n + 1..], start, end)
              && Reached(b, es[n..], start, end) == 1 + Reached(Generate(b, i), es[n + 1..], start, end)
            else
              GenerateEach(b, records, shifts, es[n..], start, end) == b && Reached(b, es[n..], start, end) == 0
  {
    assert es[n..][1..] == es[n + 1..];
    GenerateKeepsReached(b, InputFor(records, shifts, es[n], start, end), es[n + 1..], start, end);
  }

  // ---------------------------------------------------------------- locking and exporting

  /** The period's timesheets within the actor's scope, by employee. */
  function FoundKeys(sheets: map<Key, Sheet>, start: int, end: int, scope: seq<EmployeeId>): (keys: seq<Key>)
    ensures forall k | k in keys :: k in sheets
  {
    if scope == [] then []
    else
      var key := Key(scope[|scope| - 1], StartOfDay(start), EndOfDay(end));
      FoundKeys(sheets, start, end, scope[..|scope| - 1]) + (if key in sheets then [key] else [])
  }

  function Rows(sheets: map<Key, Sheet>, keys: seq<Key>): seq<Entry>
    requires forall k | k in keys :: k in sheets
  {
    if keys == [] then [] else Rows(sheets, keys[..|keys| - 1]) + sheets[keys[|keys| - 1]].entries
  }

  function Snapshot(sheets: map<Key, Sheet>, keys: seq<Key>): ExportTotals
    requires forall k | k in keys :: k in sheets
  {
    var rows := Rows(sheets, keys);
    ExportTotals(|rows|, Sum(rows, Regular()), Sum(rows, Overtime()), Sum(rows, Breaks()), Sum(rows, Payable()), Sum(rows, Exceptions()))
  }

  predicate PeriodOk(start: int, end: int) { StartOfDay(start) < EndOfDay(end) }

  predicate CanLock(sheets: map<Key, Sheet>, start: int, end: int, scope: seq<EmployeeId>) {
    var keys := FoundKeys(sheets, start, end, scope);
    PeriodOk(start, end) && keys != [] && forall k | k in keys :: Final(sheets[k].status)
  }

  predicate CanExport(sheets: map<Key, Sheet>, start: int, end: int, scope: seq<EmployeeId>) {
    var keys := FoundKeys(sheets, start, end, scope);
    PeriodOk(start, end) && keys != [] && forall k | k in keys :: sheets[k].status == Locked
  }

  function LockSheet(s: Sheet): Sheet {
    s.(status := Locked,
       entries := seq(|s.entries|, i requires 0 <= i < |s.entries| => s.entries[i].(status := LockedEntry)))
  }

  /** The bulk update: approved timesheets and their entries become locked, locked ones stay as they are. */
  function LockSheets(sheets: map<Key, Sheet>, keys: seq<Key>): (r: map<Key, Sheet>)
    ensures r.Keys == sheets.Keys
  {
    map k | k in sheets :: if k in keys && sheets[k].status == Approved then LockSheet(sheets[k]) else sheets[k]
  }

  predicate DecisionStatus(status: SheetStatus) {
    status == Approved || status == Rejected || status == Locked || status == Reopened
  }

  predicate Succeeds(p: Payroll, op: Op) {
    var sheets := p.book.sheets;
    match op
    case DoPunch(req) => Accepted(p.records, req)
    case DoAdjust(a) => AdjustAllowed(p.records, sheets, a)
    case DoGenerate(start, end, _) => PeriodOk(start, end)
    case DoSubmit(key) => key in sheets && !Final(sheets[key].status)
    case DoDecide(key, status) => key in sheets && DecisionStatus(status)
    case DoLock(start, end, scope) => CanLock(sheets, start, end, scope)
    case DoExport(start, end, scope) => CanExport(sheets, start, end, scope)
    case _ => true
  }

  function LockLedgerRow(sheets: map<Key, Sheet>, start: int, end: int, scope: seq<EmployeeId>): LedgerRow {
    var keys := FoundKeys(sheets, start, end, scope);
    LedgerRow(LockLedger, start, end, keys, Snapshot(LockSheets(sheets, keys), keys))
  }

  function CsvLedgerRow(sheets: map<Key, Sheet>, start: int, end: int, scope: seq<EmployeeId>): LedgerRow {
    var keys := FoundKeys(sheets, start, end, scope);
    LedgerRow(CsvLedger, start, end, keys, Snapshot(sheets, keys))
  }

  function Step(p: Payroll, op: Op): Payroll {
    var sheets := p.book.sheets;
    if !Succeeds(p, op) then p
    else
      match op
      case DoPunch(req) => p.(records := PunchStep(p.records, req))
      case DoAdjust(a) => p.(records := Adjust(p.records, sheets, a))
      case DoReconcile(q, dryRun) => if dryRun then p else p.(records := ReconcileTable(p.records, q, p.shifts))
      case ScheduleChanged(shifts) => p.(shifts := shifts)
      case ExceptionsChanged(exceptions) => p.(book := p.book.(exceptions := exceptions))
      case DoGenerate(start, end, scope) =>
        p.(book := GenerateEach(p.book, p.records, p.shifts, Employees(p.records, p.shifts, start, end, scope), start, end))
      case DoSubmit(key) => p.(book := p.book.(sheets := sheets[key := sheets[key].(status := Submitted)]))
      case DoDecide(key, status) => p.(book := p.book.(sheets := sheets[key := sheets[key].(status := status)]))
      case DoLock(start, end, scope) =>
        p.(book := p.book.(sheets := LockSheets(sheets, FoundKeys(sheets, start, end, scope))),
           ledger := p.ledger + [LockLedgerRow(sheets, start, end, scope)])
      case DoExport(start, end, scope) =>
        p.(ledger := p.ledger + [CsvLedgerRow(sheets, start, end, scope)])
  }

  function Run(p: Payroll, ops: seq<Op>): Payroll {
    if ops == [] then p else Step(Run(p, ops[..|ops| - 1]), ops[|ops| - 1])
  }

  const EMPTY := Payroll([], [], Book(map[], []), [])

  // ---------------------------------------------------------------- the service

  class PayrollService {
    const attendance: AttendanceStore
    const timesheets: TimesheetStore
    var shifts: seq<Shift>
    var ledger: seq<LedgerRow>

    constructor (attendance: AttendanceStore, timesheets: TimesheetStore)
      ensures this.attendance == attendance && this.timesheets == timesheets && shifts == [] && ledger == []
    {
      this.attendance, this.timesheets, shifts, ledger := attendance, timesheets, [], [];
    }

    function Tables(): Payroll
      reads this, attendance, timesheets
    {
      Payroll(attendance.records, shifts, timesheets.Tables(), ledger)
    }

    method CreateManualRecord(a: Adjustment) returns (ok: bool)
      modifies attendance
      ensures Tables() == Step(old(Tables()), DoAdjust(a))
      ensures ok == Succeeds(old(Tables()), DoAdjust(a))
    {
      if !AdjustAllowed(attendance.records, timesheets.sheets, a) {
        return false;
      }
      var existing := Existing(attendance.records, a);
      if existing.Some? {
        var r := attendance.records[existing.value];
        attendance.records := attendance.records[existing.value := AdjustedRecord(a, r.breaks, r.punches)];
      } else {
        attendance.records := attendance.records + [AdjustedRecord(a, [], [])];
      }
      return true;
    }

    /** The loop over the employees, one transaction each. */
    method GenerateAll(es: seq<EmployeeId>, start: int, end: int) returns (ok: bool)
      modifies timesheets
      ensures timesheets.Tables() == GenerateEach(old(timesheets.Tables()), attendance.records, shifts, es, start, end)
      ensures ok <==> Reached(old(timesheets.Tables()), es, start, end) == |es|
    {
      ghost var goal := GenerateEach(timesheets.Tables(), attendance.records, shifts, es, start, end);
      for n := 0 to |es|
        invariant GenerateEach(timesheets.Tables(), attendance.records, shifts, es[n..], start, end) == goal
        invariant n + Reached(timesheets.Tables(), es[n..], start, end) == Reached(old(timesheets.Tables()), es, start, end)
      {
        NextEmployee(timesheets.Tables(), attendance.records, shifts, es, n, start, end);
        ok := timesheets.GenerateTimesheet(InputFor(attendance.records, shifts, es[n], start, end));
        if !ok {
          return false;
        }
      }
      return true;
    }

    method GenerateTimesheets(start: int, end: int, scope: seq<EmployeeId>) returns (ok: bool)
      modifies timesheets
      ensures Tables() == Step(old(Tables()), DoGenerate(start, end, scope))
      ensures var es := Employees(old(attendance.records), old(shifts), start, end, scope);
              ok <==> PeriodOk(start, end) && Reached(old(timesheets.Tables()), es, start, end) == |es|
    {
      if EndOfDay(end) <= StartOfDay(start) {
        return false;
      }
      ok := GenerateAll(Employees(attendance.records, shifts, start, end, scope), start, end);
    }

    method SubmitTimesheet(key: Key) returns (ok: bool)
      modifies timesheets
      ensures Tables() == Step(old(Tables()), DoSubmit(key))
      ensures ok == Succeeds(old(Tables()), DoSubmit(key))
    {
      if key !in timesheets.sheets || Final(timesheets.sheets[key].status) {
        return false;
      }
      timesheets.sheets := timesheets.sheets[key := timesheets.sheets[key].(status := Submitted)];
      return true;
    }

    method DecideTimesheet(key: Key, status: SheetStatus) returns (ok: bool)
      modifies timesheets
      ensures Tables() == Step(old(Tables()), DoDecide(key, status))
      ensures ok == Succeeds(old(Tables()), DoDecide(key, status))
    {
      if key !in timesheets.sheets || !DecisionStatus(status) {
        return false;
      }
      timesheets.sheets := timesheets.sheets[key := timesheets.sheets[key].(status := status)];
      return true;
    }

    method LockPayrollPeriod(start: int, end: int, scope: seq<EmployeeId>) returns (ok: bool)
      modifies this`ledger, timesheets
      ensures Tables() == Step(old(Tables()), DoLock(start, end, scope))
      ensures ok == Succeeds(old(Tables()), DoLock(start, end, scope))
    {
      var keys := FoundKeys(timesheets.sheets, start, end, scope);
      if EndOfDay(end) <= StartOfDay(start) || keys == []
         || exists k | k in keys :: !Final(timesheets.sheets[k].status) {
        return false;
      }
      timesheets.sheets := LockSheets(timesheets.sheets, keys);
      ledger := ledger + [LedgerRow(LockLedger, start, end, keys, Snapshot(timesheets.sheets, keys))];
      return true;
    }

    method ExportPayrollPeriod(start: int, end: int, scope: seq<EmployeeId>) returns (ok: bool)
      modifies this`ledger
      ensures Tables() == Step(old(Tables()), DoExport(start, end, scope))
      ensures ok == Succeeds(old(Tables()), DoExport(start, end, scope))
    {
      var keys := FoundKeys(timesheets.sheets, start, end, scope);
      if EndOfDay(end) <= StartOfDay(start) || keys == []
         || exists k | k in keys :: timesheets.sheets[k].status != Locked {
        return false;
      }
      ledger := ledger + [LedgerRow(CsvLedger, start, end, keys, Snapshot(timesheets.sheets, keys))];
      return true;
    }
  }

  // ---------------------------------------------------------------- amounts stay consistent

  ghost predicate PayrollInv(p: Payroll) { RecordsOk(p.records) && SheetsOk(p.book.sheets) }

  lemma PunchKeepsRecordsOk(records: seq<Record>, req: Request)
    requires RecordsOk(records)
    ensures RecordsOk(PunchStep(records, req))
  {
    if Accepted(records, req) {
      var t := Target(records, req);
      var clockOut := if req.kind == ClockOut then Some(req.at) else t.clockOut;
      var clockIn := if req.kind == ClockIn then Some(req.at) else t.clockIn;
      MetricsAreConsistent(req.policy, None, t.scheduledStart, t.scheduledEnd, clockIn, clockOut, t.minutes.breaks);
    }
  }

  lemma AdjustKeepsRecordsOk(records: seq<Record>, sheets: map<Key, Sheet>, a: Adjustment)
    requires RecordsOk(records)
    ensures RecordsOk(Adjust(records, sheets, a))
  {
    MetricsAreConsistent(a.policy, a.shift, None, None, a.clockIn, a.clockOut, a.breakMinutes);
  }

  lemma {:induction false} GenerateEachKeepsSheetsOk(b: Book, records: seq<Record>, shifts: seq<Shift>, es: seq<EmployeeId>, start: int, end: int)
    requires RecordsOk(records) && SheetsOk(b.sheets)
    ensures SheetsOk(GenerateEach(b, records, shifts, es, start, end).sheets)
    decreases |es|
  {
    if es != [] {
      var i := InputFor(records, shifts, es[0], start, end);
      if CanGenerate(b, i.key) {
        GenerateKeepsSheetsOk(b, i);
        GenerateEachKeepsSheetsOk(Generate(b, i), records, shifts, es[1..], start, end);
      }
    }
  }

  lemma LockingKeepsAmounts(s: Sheet)
    ensures Recalculate(LockSheet(s).entries) == Recalculate(s.entries)
    ensures Sum(LockSheet(s).entries, Payable()) == Sum(s.entries, Payable())
  {
    SumAlike(s.entries, LockSheet(s).entries, Regular());
    SumAlike(s.entries, LockSheet(s).entries, Overtime());
    SumAlike(s.entries, LockSheet(s).entries, Breaks());
    SumAlike(s.entries, LockSheet(s).entries, Exceptions());
    SumAlike(s.entries, LockSheet(s).entries, Payable());
  }

  lemma LockKeepsSheetsOk(sheets: map<Key, Sheet>, keys: seq<Key>)
    requires SheetsOk(sheets)
    ensures SheetsOk(LockSheets(sheets, keys))
  {
    forall k | k in sheets
      ensures SheetOk(LockSheets(sheets, keys)[k])
    {
      assert SheetOk(sheets[k]);
      LockingKeepsAmounts(sheets[k]);
    }
  }

  lemma StepKeepsInv(p: Payroll, op: Op)
    requires PayrollInv(p)
    ensures PayrollInv(Step(p, op))
  {
    match op {
      case DoPunch(req) => PunchKeepsRecordsOk(p.records, req);
      case DoAdjust(a) => AdjustKeepsRecordsOk(p.records, p.book.sheets, a);
      case DoReconcile(q, dryRun) => ReconcileKeepsWork(p.records, q, p.shifts);
      case DoGenerate(start, end, scope) =>
        GenerateEachKeepsSheetsOk(p.book, p.records, p.shifts, Employees(p.records, p.shifts, start, end, scope), start, end);
      case DoLock(start, end, scope) => LockKeepsSheetsOk(p.book.sheets, FoundKeys(p.book.sheets, start, end, scope));
      case _ =>
    }
  }

  lemma {:induction false} RunKeepsInv(ops: seq<Op>)
    ensures PayrollInv(Run(EMPTY, ops))
  {
    if ops != [] {
      RunKeepsInv(ops[..|ops| - 1]);
      StepKeepsInv(Run(EMPTY, ops[..|ops| - 1]), ops[|ops| - 1]);
    }
  }

  lemma {:induction false} RowsOk(sheets: map<Key, Sheet>, keys: seq<Key>)
    requires SheetsOk(sheets) && forall k | k in keys :: k in sheets
    ensures EntriesOk(Rows(sheets, keys))
    decreases |keys|
  {
    if keys != [] {
      RowsOk(sheets, keys[..|keys| - 1]);
      assert keys[|keys| - 1] in keys;
      assert SheetOk(sheets[keys[|keys| - 1]]);
    }
  }

  /** In every run, whatever a lock or an export reports splits its gross minutes into regular and
      overtime, and so does every stored timesheet. */
  lemma AmountsAddUp(ops: seq<Op>, key: Key, keys: seq<Key>)
    requires var sheets := Run(EMPTY, ops).book.sheets; key in sheets && forall k | k in keys :: k in sheets
    ensures var sheets := Run(EMPTY, ops).book.sheets;
            && sheets[key].totals == Recalculate(sheets[key].entries)
            && sheets[key].totals.regular + sheets[key].totals.overtime == Sum(sheets[key].entries, Payable())
            && Snapshot(sheets, keys).regular + Snapshot(sheets, keys).overtime == Snapshot(sheets, keys).gross
  {
    RunKeepsInv(ops);
    var sheets := Run(EMPTY, ops).book.sheets;
    assert SheetOk(sheets[key]);
    RegularPlusOvertime(sheets[key].entries);
    RowsOk(sheets, keys);
    RegularPlusOvertime(Rows(sheets, keys));
  }

  ghost predicate DistinctShifts(shifts: seq<Shift>) {
    forall j, k | 0 <= j < k < |shifts| :: shifts[j].id != shifts[k].id
  }

  lemma {:induction false} RecordIdsAreValid(records: seq<Record>, e: EmployeeId, start: int, end: int)
    ensures Distinct(RecordIds(records, e, start, end))
    ensures forall k | k in RecordIds(records, e, start, end) :: k < |records|
    decreases |records|
  {
    if records != [] {
      var n := |records| - 1;
      RecordIdsAreValid(records[..n], e, start, end);
      assert n !in RecordIds(records[..n], e, start, end);
    }
  }

  lemma {:induction false} PeriodShiftsAreValid(shifts: seq<Shift>, e: EmployeeId, start: int, end: int)
    requires DistinctShifts(shifts)
    ensures DistinctShifts(PeriodShifts(shifts, e, start, end))
    ensures forall s | s in PeriodShifts(shifts, e, start, end) :: s in shifts
    decreases |shifts|
  {
    if shifts != [] {
      var n := |shifts| - 1;
      PeriodShiftsAreValid(shifts[..n], e, start, end);
      assert forall s | s in shifts[..n] :: s.id != shifts[n].id;
    }
  }

  lemma InputIsValid(records: seq<Record>, shifts: seq<Shift>, e: EmployeeId, start: int, end: int)
    requires DistinctShifts(shifts)
    ensures ValidInput(InputFor(records, shifts, e, start, end))
  {
    RecordIdsAreValid(records, e, start, end);
    PeriodShiftsAreValid(shifts, e, start, end);
    var i := InputFor(records, shifts, e, start, end);
    assert forall k | 0 <= k < |i.ids| :: i.ids[k] in i.ids;
  }

  // ---------------------------------------------------------------- a whole generation

  /** Once settled, an employee's timesheet is left as it is by the rest of the loop. */
  lemma {:induction false} SettledThroughout(b: Book, records: seq<Record>, shifts: seq<Shift>, es: seq<EmployeeId>, start: int, end: int, e: EmployeeId)
    requires Settled(b, InputFor(records, shifts, e, start, end))
    ensures var i, b' := InputFor(records, shifts, e, start, end), GenerateEach(b, records, shifts, es, start, end);
            Settled(b', i) && b'.sheets[i.key] == b.sheets[i.key]
    decreases |es|
  {
    if es != [] {
      var i, first := InputFor(records, shifts, e, start, end), InputFor(records, shifts, es[0], start, end);
      if CanGenerate(b, first.key) {
        if es[0] == e {
          SettledIsFixed(b, i);
        } else {
          SettledStays(b, i, first);
        }
        SettledThroughout(Generate(b, first), records, shifts, es[1..], start, end, e);
      }
    }
  }

  /** The loop settles the timesheet of every employee it gets through, and takes over what it held. */
  lemma {:induction false} LoopSettles(b: Book, records: seq<Record>, shifts: seq<Shift>, es: seq<EmployeeId>, start: int, end: int, j: nat)
    requires DistinctShifts(shifts) && j < Reached(b, es, start, end)
    ensures var i, b' := InputFor(records, shifts, es[j], start, end), GenerateEach(b, records, shifts, es, start, end);
            && Settled(b', i)
            && TakesOver(DraftOf(b.sheets, i.key).entries, b'.sheets[i.key].entries, i.records, Slots(i), |Slots(i)|)
    decreases |es|
  {
    var first := InputFor(records, shifts, es[0], start, end);
    if es[0] == es[j] {
      InputIsValid(records, shifts, es[0], start, end);
      GenerateSettles(b, first);
      SettledThroughout(Generate(b, first), records, shifts, es[1..], start, end, es[0]);
    } else {
      GenerateKeepsReached(b, first, es[1..], start, end);
      LoopSettles(Generate(b, first), records, shifts, es[1..], start, end, j - 1);
    }
  }

  lemma {:induction false} LoopKeepsReached(b: Book, records: seq<Record>, shifts: seq<Shift>, es: seq<EmployeeId>, start: int, end: int, es': seq<EmployeeId>)
    ensures Reached(GenerateEach(b, records, shifts, es, start, end), es', start, end) == Reached(b, es', start, end)
    decreases |es|
  {
    if es != [] {
      var first := InputFor(records, shifts, es[0], start, end);
      if CanGenerate(b, first.key) {
        GenerateKeepsReached(b, first, es', start, end);
        LoopKeepsReached(Generate(b, first), records, shifts, es[1..], start, end, es');
      }
    }
  }

  lemma {:induction false} SettledLoopIsFixed(b: Book, records: seq<Record>, shifts: seq<Shift>, es: seq<EmployeeId>, start: int, end: int)
    requires forall j: nat | j < Reached(b, es, start, end) :: Settled(b, InputFor(records, shifts, es[j], start, end))
    ensures GenerateEach(b, records, shifts, es, start, end) == b
    decreases |es|
  {
    if Reached(b, es, start, end) > 0 {
      SettledIsFixed(b, InputFor(records, shifts, es[0], start, end));
      forall j: nat | j < Reached(b, es[1..], start, end)
        ensures Settled(b, InputFor(records, shifts, es[1..][j], start, end))
      {
        assert es[1..][j] == es[j + 1];
      }
      SettledLoopIsFixed(b, records, shifts, es[1..], start, end);
    }
  }

  /** The timesheet reports the input's records, except the dropped ones, and besides only those of the
      entries it held before that no slot takes over. */
  ghost predicate Reports(sheets: map<Key, Sheet>, before: seq<Entry>, i: Input, w: Measure) {
    && i.key in sheets && sheets[i.key].status == Draft
    && Sum(sheets[i.key].entries, EntryMinutes(w)) + Sum(i.ids, DroppedMinutes(i, w))
       == Sum(i.ids, RecordMinutes(i, w)) + LeftOverMinutes(before, i, w)
  }

  lemma LoopReports(b: Book, records: seq<Record>, shifts: seq<Shift>, es: seq<EmployeeId>, start: int, end: int, j: nat, w: Measure)
    requires DistinctShifts(shifts) && j < Reached(b, es, start, end)
    ensures var i := InputFor(records, shifts, es[j], start, end);
            Reports(GenerateEach(b, records, shifts, es, start, end).sheets, DraftOf(b.sheets, i.key).entries, i, w)
  {
    var i, after := InputFor(records, shifts, es[j], start, end), GenerateEach(b, records, shifts, es, start, end);
    LoopSettles(b, records, shifts, es, start, end, j);
    InputIsValid(records, shifts, es[j], start, end);
    SettledSheetReports(after, i, w);
    StaleMinutesAreLeftOver(DraftOf(b.sheets, i.key).entries, after.sheets[i.key].entries, i, w);
  }

  /** After generating a period, the timesheet of every employee the loop got through reports the minutes of
      all the employee's records of the period, except the dropped ones, and besides only those of entries of
      earlier generations that no slot takes over: none, if it is the period's first timesheet. */
  lemma GenerationReportsThePeriod(p: Payroll, start: int, end: int, scope: seq<EmployeeId>, j: nat, w: Measure)
    requires DistinctShifts(p.shifts) && PeriodOk(start, end)
    requires j < Reached(p.book, Employees(p.records, p.shifts, start, end, scope), start, end)
    ensures var i := InputFor(p.records, p.shifts, Employees(p.records, p.shifts, start, end, scope)[j], start, end);
            && Reports(Step(p, DoGenerate(start, end, scope)).book.sheets, DraftOf(p.book.sheets, i.key).entries, i, w)
            && (i.key !in p.book.sheets ==> LeftOverMinutes(DraftOf(p.book.sheets, i.key).entries, i, w) == 0)
  {
    LoopReports(p.book, p.records, p.shifts, Employees(p.records, p.shifts, start, end, scope), start, end, j, w);
  }

  /** Generating a period again, from the same records, schedule and exceptions, changes nothing. */
  lemma GeneratingAgainChangesNothing(p: Payroll, start: int, end: int, scope: seq<EmployeeId>)
    requires DistinctShifts(p.shifts)
    ensures var once := Step(p, DoGenerate(start, end, scope));
            Step(once, DoGenerate(start, end, scope)) == once
  {
    if PeriodOk(start, end) {
      var es := Employees(p.records, p.shifts, start, end, scope);
      var b := GenerateEach(p.book, p.records, p.shifts, es, start, end);
      LoopKeepsReached(p.book, p.records, p.shifts, es, start, end, es);
      forall j: nat | j < Reached(b, es, start, end)
        ensures Settled(b, InputFor(p.records, p.shifts, es[j], start, end))
      {
        LoopSettles(p.book, p.records, p.shifts, es, start, end, j);
      }
      SettledLoopIsFixed(b, p.records, p.shifts, es, start, end);
    }
  }

  /** Every other timesheet, in particular of employees after a finalized one, is left alone. */
  lemma {:induction false} OthersAreLeftAlone(b: Book, records: seq<Record>, shifts: seq<Shift>, es: seq<EmployeeId>, start: int, end: int, key: Key)
    requires forall j: nat | j < Reached(b, es, start, end) :: key != Key(es[j], StartOfDay(start), EndOfDay(end))
    ensures var b' := GenerateEach(b, records, shifts, es, start, end);
            (key in b'.sheets <==> key in b.sheets) && (key in b.sheets ==> b'.sheets[key] == b.sheets[key])
    decreases |es|
  {
    if Reached(b, es, start, end) > 0 {
      var first := InputFor(records, shifts, es[0], start, end);
      GenerateKeepsReached(b, first, es[1..], start, end);
      forall j: nat | j < Reached(b, es[1..], start, end)
        ensures key != Key(es[1..][j], StartOfDay(start), EndOfDay(end))
      {
        assert es[1..][j] == es[j + 1];
      }
      OthersAreLeftAlone(Generate(b, first), records, shifts, es[1..], start, end, key);
    }
  }

  // ---------------------------------------------------------------- locked stays locked

  lemma {:induction false} GenerateEachSkipsFinal(b: Book, records: seq<Record>, shifts: seq<Shift>, es: seq<EmployeeId>, start: int, end: int, key: Key)
    requires key in b.sheets && Final(b.sheets[key].status)
    ensures var b' := GenerateEach(b, records, shifts, es, start, end);
            key in b'.sheets && b'.sheets[key] == b.sheets[key]
    decreases |es|
  {
    if es != [] {
      var i := InputFor(records, shifts, es[0], start, end);
      if CanGenerate(b, i.key) {
        assert i.key != key;
        GenerateEachSkipsFinal(Generate(b, i), records, shifts, es[1..], start, end, key);
      }
    }
  }

  lemma StepKeepsLocked(p: Payroll, op: Op, key: Key)
    requires key in p.book.sheets && p.book.sheets[key].status == Locked
    requires op.DoDecide? ==> op.key != key
    ensures var p' := Step(p, op); key in p'.book.sheets && p'.book.sheets[key] == p.book.sheets[key]
  {
    if op.DoGenerate? {
      GenerateEachSkipsFinal(p.book, p.records, p.shifts, Employees(p.records, p.shifts, op.start, op.end, op.scope), op.start, op.end, key);
    }
  }

  /** From the moment it is locked, no run of punches, edits, corrections, reconciliations, schedule and
      exception changes, regenerations, submissions, locks and exports changes a timesheet's status,
      totals or entries: only a decision on that timesheet does. */
  lemma {:induction false} LockedIsFrozen(p: Payroll, ops: seq<Op>, key: Key)
    requires key in p.book.sheets && p.book.sheets[key].status == Locked
    requires forall i | 0 <= i < |ops| :: ops[i].DoDecide? ==> ops[i].key != key
    ensures var p' := Run(p, ops); key in p'.book.sheets && p'.book.sheets[key] == p.book.sheets[key]
  {
    if ops != [] {
      LockedIsFrozen(p, ops[..|ops| - 1], key);
      StepKeepsLocked(Run(p, ops[..|ops| - 1]), ops[|ops| - 1], key);
    }
  }

  /** One step takes a timesheet out of its lock if and only if it is a decision on it, with any other of
      the statuses a decision may set: the code does not ask what the status was. */
  lemma LockedChangesExactly(p: Payroll, op: Op, key: Key)
    requires key in p.book.sheets && p.book.sheets[key].status == Locked
    ensures key in Step(p, op).book.sheets
    ensures Step(p, op).book.sheets[key] != p.book.sheets[key]
            <==> op.DoDecide? && op.key == key && DecisionStatus(op.status) && op.status != Locked
    ensures op.DoDecide? && op.key == key && DecisionStatus(op.status) ==>
              Step(p, op).book.sheets[key] == p.book.sheets[key].(status := op.status)
  {
    if !(op.DoDecide? && op.key == key) {
      StepKeepsLocked(p, op, key);
    }
  }

  lemma {:induction false} SameRows(a: map<Key, Sheet>, b: map<Key, Sheet>, keys: seq<Key>)
    requires forall k | k in keys :: k in a && k in b && a[k] == b[k]
    ensures Rows(a, keys) == Rows(b, keys)
    decreases |keys|
  {
    if keys != [] {
      assert keys[|keys| - 1] in keys;
      SameRows(a, b, keys[..|keys| - 1]);
    }
  }

  lemma LockedKeysFrozen(p: Payroll, ops: seq<Op>, keys: seq<Key>)
    requires forall k | k in keys :: k in p.book.sheets && p.book.sheets[k].status == Locked
    requires forall i | 0 <= i < |ops| :: ops[i].DoDecide? ==> ops[i].key !in keys
    ensures forall k | k in keys :: k in Run(p, ops).book.sheets && Run(p, ops).book.sheets[k] == p.book.sheets[k]
    ensures Rows(Run(p, ops).book.sheets, keys) == Rows(p.book.sheets, keys)
  {
    forall k | k in keys
      ensures k in Run(p, ops).book.sheets && Run(p, ops).book.sheets[k] == p.book.sheets[k]
    {
      LockedIsFrozen(p, ops, k);
    }
    SameRows(Run(p, ops).book.sheets, p.book.sheets, keys);
  }

  /** What a successful lock writes into its ledger row is the state it leaves behind. */
  lemma LockReportsLocked(p: Payroll, start: int, end: int, scope: seq<EmployeeId>)
    requires CanLock(p.book.sheets, start, end, scope)
    ensures var keys, p' := FoundKeys(p.book.sheets, start, end, scope), Step(p, DoLock(start, end, scope));
            && (forall k | k in keys :: k in p'.book.sheets && p'.book.sheets[k].status == Locked)
            && p'.ledger == p.ledger + [LedgerRow(LockLedger, start, end, keys, Snapshot(p'.book.sheets, keys))]
  {
    forall k | k in FoundKeys(p.book.sheets, start, end, scope)
      ensures Final(p.book.sheets[k].status)
    {}
  }

  /** After a successful lock (leaving `locked`) and any run without a decision on the locked timesheets,
      an export of the same timesheets succeeds and reports the totals of the lock ledger. */
  lemma ExportMatchesLock(p: Payroll, start: int, end: int, scope: seq<EmployeeId>, locked: Payroll, ops: seq<Op>, scope': seq<EmployeeId>)
    requires CanLock(p.book.sheets, start, end, scope) && locked == Step(p, DoLock(start, end, scope))
    requires forall i | 0 <= i < |ops| && ops[i].DoDecide? :: ops[i].key !in FoundKeys(p.book.sheets, start, end, scope)
    requires FoundKeys(Run(locked, ops).book.sheets, start, end, scope') == FoundKeys(p.book.sheets, start, end, scope)
    ensures Succeeds(Run(locked, ops), DoExport(start, end, scope'))
    ensures |locked.ledger| == |p.ledger| + 1 && locked.ledger[|p.ledger|].kind == LockLedger
    ensures CsvLedgerRow(Run(locked, ops).book.sheets, start, end, scope').totals == locked.ledger[|p.ledger|].totals
  {
    LockReportsLocked(p, start, end, scope);
    LockedKeysFrozen(locked, ops, FoundKeys(p.book.sheets, start, end, scope));
  }

  // ---------------------------------------------------------------- the records behind a final timesheet

  /** An edit or a correction never touches a record that an approved or locked timesheet lists. */
  lemma AdjustSparesFinalRecords(records: seq<Record>, sheets: map<Key, Sheet>, a: Adjustment, key: Key, k: nat, id: nat)
    requires key in sheets && Final(sheets[key].status) && k < |sheets[key].entries|
    requires sheets[key].entries[k].record == Some(id) && id < |records|
    ensures id < |Adjust(records, sheets, a)| && Adjust(records, sheets, a)[id] == records[id]
  {}

  /** A record behind a final timesheet changes in exactly two kinds of steps: a reconciliation that selects
      it and finds it a new match, which has no such guard, and an accepted punch that lands on it because
      it is the employee's open record. */
  lemma FinalRecordsChangeExactly(p: Payroll, op: Op, key: Key, k: nat, id: nat)
    requires key in p.book.sheets && Final(p.book.sheets[key].status) && k < |p.book.sheets[key].entries|
    requires p.book.sheets[key].entries[k].record == Some(id) && id < |p.records|
    ensures id < |Step(p, op).records|
    ensures Step(p, op).records[id] != p.records[id] <==>
            || (op.DoReconcile? && !op.dryRun && id in Selected(p.records, op.q) && ActionFor(p.records[id], Published(p.shifts, op.q)) == Matched)
            || (op.DoPunch? && Accepted(p.records, op.req) && FindOpen(p.records, op.req.employee) == Some(id))
  {
    match op {
      case DoAdjust(a) => AdjustSparesFinalRecords(p.records, p.book.sheets, a, key, k, id);
      case DoReconcile(q, dryRun) => MatchChangesRecord(p.records[id], Published(p.shifts, q));
      case _ =>
    }
  }

  lemma MatchChangesRecord(r: Record, shifts: seq<Shift>)
    ensures Reconciled(r, shifts) != r <==> ActionFor(r, shifts) == Matched
  {}

  /** A concrete one: an unscheduled record in a locked timesheet is linked to a shift published later,
      and its overtime columns are rewritten, while the locked timesheet keeps the old ones. */
  lemma ReconciliationRewritesLockedRecord() returns (p: Payroll, q: Query, key: Key)
    ensures key in p.book.sheets && p.book.sheets[key].status == Locked
    ensures |p.records| == 1 && |p.book.sheets[key].entries| == 1
    ensures p.book.sheets[key].entries[0].record == Some(0)
    ensures p.book.sheets[key].entries[0].overtime == p.records[0].minutes.overtime == 0
    ensures |Step(p, DoReconcile(q, false)).records| == 1
    ensures Step(p, DoReconcile(q, false)).records[0].minutes.overtime == 120
    ensures Step(p, DoReconcile(q, false)).book == p.book
  {
    var policy := Policy(0, 0, None, None, 960, false, 0);
    var shift := Shift(7, 0, 0, 0, 6 * HOUR, 0);
    var worked := Minutes(0, 480, 0, 480, 0, 0, 0);
    var r := Record(0, None, policy, 0, None, None, Some(0), Some(8 * HOUR), Some(0), Some(8 * HOUR), worked, Completed, [], []);
    key := Key(0, 0, DAY - 1);
    var entry := Entry(Some(0), None, 0, 0, 480, 0, 480, 0, 0, LockedEntry);
    p := Payroll([r], [shift], Book(map[key := Sheet(Locked, Recalculate([entry]), [entry])], []), []);
    q := Query(0, DAY, None, 50);
    NearbyShiftMatches(r, shift);
    OneShiftPublished(shift, q);
    assert Found([r], q, 1) == [0] by {
      assert Found([r], q, 0) == [];
    }
    var after := Step(p, DoReconcile(q, false));
    assert after.records[0] == Link(r, shift);
    assert DurationMinutes(0, 6 * HOUR, 0) == 360 && DurationMinutes(0, 8 * HOUR, 0) == 480;
    assert after.records[0].minutes.overtime == 120;
  }

  lemma OneShiftPublished(shift: Shift, q: Query)
    requires StartsNear(shift, q)
    ensures Published([shift], q) == [shift]
  {
    assert [shift][..0] == [] && Published([], q) == [];
  }

  lemma NearbyShiftMatches(r: Record, shift: Shift)
    requires r.employee == shift.employee && r.shift.None? && r.workDate == shift.workDate == 0
    requires r.clockIn == Some(0) && r.clockOut == Some(8 * HOUR) && shift.startsAt == 0 && shift.endsAt == 6 * HOUR
    ensures ActionFor(r, [shift]) == Matched && MatchOf(r, [shift]).value.shift == shift
  {
    assert ShiftsOf([], r.employee) == [];
    assert [shift][..0] == [];
    assert ShiftsOf([shift], r.employee) == [shift];
    assert StartDelta(r, shift) == 0 && EndDelta(r, shift) == Some(120);
    assert Score(r, shift) == 1200 - 360 + 72;
    var m := Match(shift, Confidence(r, shift), 0, Some(120));
    assert Candidates(r, []) == [];
    assert Candidates(r, [shift]) == [m];
    assert First([]) == None && [m][..0] == [];
    assert BestMatch(r, [shift]) == Some(m);
  }
}
