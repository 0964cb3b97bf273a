# Workforce core: attendance, assignments, credentials, trend buckets

A Dafny model of the rules behind an HR platform's API, and proofs about them.

- **Assignments** (`Assignments`, `AssignmentRequests`, `AssignmentInvariants`, `Headcount`, `ReportingGraph`,
  `ReportingLines`): effective-dated primary assignments with half-open windows, budgeted headcount, and reporting lines
  that must not form cycles. The table is a field of a class whose methods run the create, update, end and delete
  transactions.
- **Attendance** (`Punches`, `OfflineSync`, `Metrics`): the punch state machine, the replay of punches recorded offline
  with crashes between its three commits, and the minute arithmetic every record goes through.
- **Payroll** (`Reconciliation`, `Timesheets`, `TimesheetContents`, `PayrollPeriod`, `PeriodContents`, `TimeWindow`,
  `Premium`, `PayrollCsv`): linking records to the schedule, generating timesheets, submitting, deciding, locking and
  exporting a period, premium minutes in daily windows that may wrap past midnight, and the CSV printer with a reader for
  section 2 of RFC 4180.
- **Credentials** (`Credentials`): sessions and rotating refresh tokens, with replay detection and bulk revocation.
- **Dashboard** (`Calendar`, `Buckets`): cutting a period into calendar days or months whose counts add up.
- **Foundations** (`Time`, `Sums`, `Wrappers`): milliseconds, JavaScript's rounding, sums over tables.

Time is an integer number of milliseconds in UTC; minutes are natural numbers. A database table is a field of a class, a
transaction is one atomic method, and an exception leaves the tables as they were. Each transaction method is proved
equal to a step function on the tables; the properties of single steps, of whole runs and of the minute arithmetic are
lemmas about those functions. Runs are arbitrary sequences of operations with arbitrary arguments and clocks.

## Where the code departs from what it is for

Each of these is proved as an exact condition, a witness, or both.

- Ending an assignment never compares the new end with the old one, so an accepted end can create overlapping primaries
  (`AssignmentInvariants.EndKeepsDisjointExactly`, `ExtendingEndOverlaps`), exceed a budget
  (`Headcount.EndKeepsBudgetExactly`, `ExtendingEndOverBudget`) or close a cycle of reporting lines
  (`ReportingLines.EndKeepsAcyclicExactly`, `ExtendingEndClosesCycle`).
- The headcount check counts every holder whose window overlaps the new one, so it can refuse a row that would never exceed
  the budget (`Headcount.NeedlessRefusalExactly`, `SuccessiveHoldersRefused`).
- Open-ended windows are compared with a far-future constant, so a row that starts there is not seen
  (`AssignmentInvariants.AdmitKeepsDisjointExactly`, `FarFutureOverlapAccepted`).
- The manager chain is walked at `effectiveFrom` only; later starts of others can close a cycle
  (`ReportingLines.AcyclicExactly`, `AcceptedCycle`).
- If writing APPLIED to the offline ledger fails after the punch was committed, the item is reported as rejected although
  it was punched (`OfflineSync.RejectedButPunchedExactly`, `PunchReportedAsRejected`); after a crash the item stays
  PENDING for good (`OfflineSync.CrashedStaysPending`).
- A direct or kiosk punch stores the client's mutation id without asking the ledger, so the same id can be stored again by
  a sync (`OfflineSync.CarriedAtMostOnceMore`, `DirectPunchReplayedLater`).
- A manual record without a clock-out can become a second open record (`PayrollPeriod.AdjustKeepsOneOpenExactly`,
  `ManualRecordOpensSecond`).
- Only the first record of a shift reaches the timesheet (`Timesheets.ConservationExactly`, `SecondRecordIsUnpaid`).
- A regeneration leaves old entries behind that no shift or record finds any more, exactly as
  `Timesheets.LeftOverExactly` says: a record that arrives late gets a second entry (`LateRecordAddsSecondEntry`,
  `LateRecordListsShiftTwice`), and a record linked to a shift between two generations is paid twice
  (`LinkedRecordIsPaidTwice`); by how much the timesheet is off is `Timesheets.MinutesAreAccountedFor`.
- A decision is accepted from every status, so it reopens a locked timesheet (`PayrollPeriod.LockedChangesExactly`).
- Reconciliation does not ask whether a record is behind a final timesheet
  (`PayrollPeriod.FinalRecordsChangeExactly`, `ReconciliationRewritesLockedRecord`).
- The headcount trend never falls, because separations do not lower it (`Buckets.HeadcountFollowsHires`,
  `HeadcountIsRightExactly`, `LeaverIsStillCounted`).
- Signing out one session leaves its refresh token usable (`Credentials.SignedOutSessionComesBack`).

## Model

| member | source | states |
|---|---|---|
| `Assignments.AssignmentsService.AssertManagerChainSafe` | apps/api-gateway/src/assignments/assignments.service.ts:602-636 | The loop over managers at `effectiveFrom`, proved to terminate and to give the outcome of the walk whose accepted chains `WalkAcceptsExactly` characterises. |
| `Assignments.AssignmentsService.PreparePrimaryWindow` | apps/api-gateway/src/assignments/assignments.service.ts:516-559 | Rejects an overlap, or closes every overlapping earlier primary at the new start; on an error the table is as before. |
| `Assignments.AssignmentsService.WriteRow` | apps/api-gateway/src/assignments/assignments.service.ts:76-97 | The chain, window and headcount checks in the order of the transaction, then the write; an error at any of them leaves the table as it was. |
| `Assignments.AssignmentsService.CreateAssignment` | apps/api-gateway/src/assignments/assignments.service.ts:64-125 | One atomic step: the checks, `closeExistingPrimary` true by default, the new row; every error leaves the store unchanged. |
| `Assignments.AssignmentsService.UpdateAssignment` | apps/api-gateway/src/assignments/assignments.service.ts:201-271 | One atomic step on an existing row of the same employee, `closeExistingPrimary` false by default; every error leaves the store unchanged. |
| `Assignments.AssignmentsService.EndAssignment` | apps/api-gateway/src/assignments/assignments.service.ts:273-312 | Sets the end to the given instant or now, after the two checks the code makes, and nothing else. |
| `Assignments.AssignmentsService.DeleteAssignment` | apps/api-gateway/src/assignments/assignments.service.ts:314-345 | Removes a row only if it starts in the future. |
| `AssignmentInvariants.MeetIsCommonInstant` | apps/api-gateway/src/assignments/assignments.service.ts:1105-1135 | Two non-empty windows overlap exactly when some instant lies in both: the overlap query and the active query agree. |
| `AssignmentInvariants.EmptyUpdateKeepsRow` | apps/api-gateway/src/assignments/assignments.service.ts:422-514 | An update that mentions no field resolves to exactly the stored row. |
| `AssignmentRequests.UpdateWrites` | apps/api-gateway/src/assignments/assignments.service.ts:201-271 | After a successful update every field the request sets (position, manager, start, end kept, cleared or set, type, primary flag) has the requested value in the stored row, and every field it leaves out the old one. |
| `AssignmentRequests.CreateWrites` | apps/api-gateway/src/assignments/assignments.service.ts:64-125 | After a successful create the next id holds the requested values; without a type the row is a primary assignment, and without the flag the type decides. |
| `AssignmentRequests.CreateFieldsExactly` | apps/api-gateway/src/assignments/assignments.service.ts:422-514 | The fields of a create are accepted if and only if employee and start are given, the window is not empty, the references are valid and nobody is their own manager. |
| `AssignmentRequests.UpdateFieldsExactly` | apps/api-gateway/src/assignments/assignments.service.ts:422-514 | Those of an update, if and only if the same holds of the given fields together with the stored ones. |
| `AssignmentRequests.WindowExactly` | apps/api-gateway/src/assignments/assignments.service.ts:516-559 | A primary window is made if and only if every other primary of the employee that shares time with it may be closed and started earlier. |
| `AssignmentRequests.WindowErrors` | apps/api-gateway/src/assignments/assignments.service.ts:516-559 | Otherwise the error says whether closing was not asked for or one of them starts at or after the new start. |
| `AssignmentRequests.AdmitsExactly` | apps/api-gateway/src/assignments/assignments.service.ts:76-97 | A write is accepted if and only if the manager chain ends within 50 steps and avoids the employee, its window can be made, and the position has fewer holders than its budget or the budget is overridden. |
| `AssignmentRequests.ClosingDefaults` | apps/api-gateway/src/assignments/assignments.service.ts:64-82 | Unless told otherwise a create never fails for an overlap that could be closed, and an update changes its own row only. |
| `AssignmentRequests.EndsExactly` | apps/api-gateway/src/assignments/assignments.service.ts:273-312 | An end is accepted if and only if the row has not ended and the new end, now by default, is after its start; then only that column changes. |
| `AssignmentRequests.DeletesExactly` | apps/api-gateway/src/assignments/assignments.service.ts:314-345 | A row is deleted, it alone, if and only if it has not started. |
| `AssignmentInvariants.OnePrimaryAtATime` | apps/api-gateway/src/assignments/assignments.service.ts:638-653 | With disjoint windows at most one primary is active at an instant, and the current-primary query returns exactly that one. |
| `AssignmentInvariants.PreparingOnlyCloses` | apps/api-gateway/src/assignments/assignments.service.ts:516-559 | Preparing a window only moves ends earlier, to the new start, and only of rows that began before it; all other rows are untouched. |
| `AssignmentInvariants.ClosesAtMostOne` | apps/api-gateway/src/assignments/assignments.service.ts:516-559 | Under disjoint windows at most one row is closed, and it is the employee's current primary at the new start. |
| `AssignmentInvariants.AdmitKeepsDisjointExactly` | apps/api-gateway/src/assignments/assignments.service.ts:58-97 | An accepted create or update keeps all primary windows disjoint if and only if it does not open an endless window in front of a row starting at or after the far-future constant. |
| `AssignmentInvariants.FarFutureOverlapAccepted` | apps/api-gateway/src/assignments/assignments.service.ts:58 | Witness: two endless primaries of one employee, the later starting at the constant, are both accepted and then both active. |
| `AssignmentInvariants.EndKeepsDisjointExactly` | apps/api-gateway/src/assignments/assignments.service.ts:279-297 | Ending a row keeps windows disjoint if and only if no other primary of the employee starts between its start and the new end. |
| `AssignmentInvariants.NonExtendingEndFits` | apps/api-gateway/src/assignments/assignments.service.ts:279-297 | In particular an end that does not move later never runs into another primary. |
| `AssignmentInvariants.ExtendingEndOverlaps` | apps/api-gateway/src/assignments/assignments.service.ts:279-297 | Witness: an accepted end that moves later makes two primaries of one employee active at one instant. |
| `AssignmentInvariants.RunKeepsInv` | apps/api-gateway/src/assignments/assignments.service.ts:64-345 | Over every run of creates, updates, deletes and ends that do not run into the employee's next primary (so every non-extending end), with starts below the far future, windows stay non-empty and each employee's primaries pairwise disjoint. |
| `AssignmentInvariants.RunHasOnePrimary` | apps/api-gateway/src/assignments/assignments.service.ts:638-653 | In every such run an employee has at most one primary at any instant and the query finds exactly it. |
| `AssignmentInvariants.CreateKeepsPast` | apps/api-gateway/src/assignments/assignments.service.ts:64-97 | A create leaves every employee's primary at every instant before the new start the same row, in the same position, under the same manager. |
| `AssignmentInvariants.WrittenRowIsCurrent` | apps/api-gateway/src/assignments/assignments.service.ts:638-653 | At every instant of its window the written primary is the one the query returns. |
| `Headcount.AdmitKeepsBudget` | apps/api-gateway/src/assignments/assignments.service.ts:561-600 | A write accepted without `allowOverBudget` keeps every position within its budget at every instant, not only at the new start. |
| `Headcount.OwnRowsNeverCount` | apps/api-gateway/src/assignments/assignments.service.ts:84-90 | None of the rows counted against the budget belongs to the employee being assigned, because overlapping ones have just been closed. |
| `Headcount.EndKeepsBudgetExactly` | apps/api-gateway/src/assignments/assignments.service.ts:279-297 | An accepted end keeps every budget at every instant if and only if, when it moves later, the position has a place left at the old end and at each start of another holder up to the new one. |
| `Headcount.ExtendingEndOverBudget` | apps/api-gateway/src/assignments/assignments.service.ts:279-297 | Witness: an accepted later end puts two people on a position budgeted for one. |
| `Headcount.WriteKeepsBudgetExactly` | apps/api-gateway/src/assignments/assignments.service.ts:561-600 | Writing a primary row keeps every budget at every instant if and only if the position has a place left at its start and at each start of another holder inside its window. |
| `Headcount.NeedlessRefusalExactly` | apps/api-gateway/src/assignments/assignments.service.ts:583-600 | A refusal for headcount is needless if and only if the rows overlapping the window are too many although there is a place left at each of those instants. |
| `Headcount.OverrideKeepsBudgetExactly` | apps/api-gateway/src/assignments/assignments.service.ts:88-90 | A write with `allowOverBudget` stays within budget if and only if there is a place left at each of those instants. |
| `Headcount.SuccessiveHoldersRefused` | apps/api-gateway/src/assignments/assignments.service.ts:575-600 | Witness: the check counts every holder the window overlaps, so a row is refused although no instant would exceed the budget. |
| `Headcount.RunStaysWithinBudget` | apps/api-gateway/src/assignments/assignments.service.ts:561-600 | Over every run without `allowOverBudget` whose ends leave room (every non-extending end does), at every instant each position holds at most its budgeted number of primaries. |
| `ReportingGraph.WalkAcceptsExactly` | apps/api-gateway/src/assignments/assignments.service.ts:602-636 | The walk accepts exactly the chains of at most 50 managers that come to an end and never meet the employee. |
| `ReportingGraph.SafeNeverReaches` | apps/api-gateway/src/assignments/assignments.service.ts:610-616 | An accepted chain does not reach the employee at any height. |
| `ReportingGraph.ExistingCycleUnreachable` | apps/api-gateway/src/assignments/assignments.service.ts:618-622 | On acyclic lines the "existing cycle" error cannot occur. |
| `ReportingGraph.NewLineKeepsAcyclic` | apps/api-gateway/src/assignments/assignments.service.ts:602-636 | Replacing one employee's manager keeps a line graph acyclic when the chain above the manager avoids the employee. |
| `ReportingGraph.NewLineClosesCycle` | apps/api-gateway/src/assignments/assignments.service.ts:602-636 | The converse: if that chain comes back to the employee, the new graph has a cycle. |
| `ReportingLines.AcyclicAtStart` | apps/api-gateway/src/assignments/assignments.service.ts:602-636 | At `effectiveFrom` the lines after an accepted write are acyclic. |
| `ReportingLines.AcyclicExactly` | apps/api-gateway/src/assignments/assignments.service.ts:602-653 | At all instants the lines after an accepted write are acyclic if and only if, at each start of another employee's primary inside the new window, the chain above the manager avoids the employee. |
| `ReportingLines.AcyclicWithoutInnerStarts` | apps/api-gateway/src/assignments/assignments.service.ts:602-653 | In particular they are when no other primary starts strictly inside the new window. |
| `ReportingLines.AcceptedCycle` | apps/api-gateway/src/assignments/assignments.service.ts:602-636 | Witness with two employees: a cycle in the future that the walk at `effectiveFrom` accepts. |
| `ReportingLines.EndKeepsAcyclicExactly` | apps/api-gateway/src/assignments/assignments.service.ts:279-297 | An accepted end keeps the lines acyclic at all instants if and only if, when it moves later, the old manager's chain avoids the employee at the old end and at each later instant at which another employee's primary starts or another of the employee's own ends, unless another own primary is current then. |
| `ReportingLines.ExtendingEndClosesCycle` | apps/api-gateway/src/assignments/assignments.service.ts:279-297 | Witness with two employees: an accepted later end makes them report to each other. |
| `ReportingLines.RunStaysAcyclic` | apps/api-gateway/src/assignments/assignments.service.ts:64-345 | Over every run whose writes meet that condition, nobody is their own manager, however indirectly, at any instant. |
| `ReportingLines.RunMeetsNoExistingCycle` | apps/api-gateway/src/assignments/assignments.service.ts:618-622 | In such runs no walk ever reports an existing cycle. |
| `Punches.AttendanceStore.FindOrCreateOpenRecord` | apps/api-gateway/src/attendance/attendance.service.ts:3418-3468 | Returns the employee's open record, or appends one seeded from the shift; nothing else changes. |
| `Punches.AttendanceStore.ApplyPunchToRecord` | apps/api-gateway/src/attendance/attendance.service.ts:3470-3551 | Rewrites exactly one record; the branches of the code against the specification `ApplyPunch`. |
| `Punches.AttendanceStore.RecordPunch` | apps/api-gateway/src/attendance/attendance.service.ts:506-655 | The transaction: the table becomes that of `PunchStep`, a success names the record the punch landed on, and a failure names the rejecting check and leaves the table unchanged. |
| `Punches.ValidRunIsPrefixOfShift` | apps/api-gateway/src/attendance/attendance.service.ts:546-585 | The position-by-position form of the punch language is exactly the prefixes of IN (BREAK_START BREAK_END)* OUT. |
| `Punches.RejectionIsLanguage` | apps/api-gateway/src/attendance/attendance.service.ts:546-620 | On a record built by punches, the checks of the code let a punch through exactly when it extends the language and no policy rule blocks it. |
| `Punches.AcceptedExactly` | apps/api-gateway/src/attendance/attendance.service.ts:525-655 | A punch is accepted if and only if the employee's open history extended by it is a prefix of a full shift, no policy rule blocks, and a clock-out is in range. |
| `Punches.PunchLandsOnce` | apps/api-gateway/src/attendance/attendance.service.ts:525-655 | An accepted punch is appended to exactly one record, of its own employee; all other records are untouched. |
| `Punches.PunchKeepsInv` | apps/api-gateway/src/attendance/attendance.service.ts:3418-3551 | Every punch, accepted or not, under any policy, keeps the record invariant: language, one open record, at most one open break, break minutes, clock order. |
| `Punches.PunchRunKeepsInv` | apps/api-gateway/src/attendance/attendance.service.ts:525-655 | The invariant holds after every punch-only run, under any mix of policies. |
| `Punches.CompletedByOnePunch` | apps/api-gateway/src/attendance/attendance.service.ts:5547-5569 | Every completed record was completed by one accepted clock-out of the run, within the range, the clock and the maximum shift of the policy in force at that punch, and its stored minutes are what that policy pays for its clock times less its breaks. |
| `Punches.ClockedOutIsPaid` | apps/api-gateway/src/attendance/attendance.service.ts:3519-3551 | An accepted clock-out stores in every minute column what its policy makes of the record's clock times, break minutes and schedule. |
| `Punches.PunchRunFits` | apps/api-gateway/src/attendance/attendance.service.ts:3418-3551 | After every run of punches each record's day and schedule are those of its shift, and its breaks are those its punches started and ended, with their minutes. |
| `Punches.ClockRangeExactly` | apps/api-gateway/src/attendance/attendance.service.ts:5547-5569 | A clock-out is in range if and only if it is after the clock-in, within the longest shift, and neither is more than 15 minutes ahead of the clock. |
| `Punches.RejectionNames` | apps/api-gateway/src/attendance/attendance.service.ts:546-585 | Each error is answered in exactly the situation it names. |
| `Punches.PunchRunGuarantees` | apps/api-gateway/src/attendance/attendance.service.ts:525-655 | What it means: at most one open record and one open break per employee, the break on an open clocked-in record; completed records have in before out and a full shift of punches; payable is the worked time less the break column to the nearest increment, overtime what lies above the threshold, late and early leave the distance beyond grace, all by the policy of the clock-out; break minutes are the scheduled seed plus the closed breaks. |
| `PayrollPeriod.AdjustKeepsOneOpenExactly` | apps/api-gateway/src/attendance/attendance.service.ts:1856-1932 | A manual edit keeps one open record per employee if and only if it gives a clock-out or rewrites the only open one. |
| `PayrollPeriod.ManualRecordOpensSecond` | apps/api-gateway/src/attendance/attendance.service.ts:1899 | Witness: a manual record without a clock-out becomes a second open record. |
| `PayrollPeriod.EditsExactly` | apps/api-gateway/src/attendance/attendance.service.ts:1808-1880 | A manual edit is accepted if and only if the named record is the employee's, its times are in order, within the longest shift and at most 15 minutes ahead, no rule blocks it, and an existing record is changed with a reason and is on no approved or locked timesheet. |
| `PayrollPeriod.FoundRecordExactly` | apps/api-gateway/src/attendance/attendance.service.ts:1808-1845 | The record an unnamed edit rewrites is the employee's first one for the shift, or for the day, and there is none exactly when none matches. |
| `PayrollPeriod.EditStores` | apps/api-gateway/src/attendance/attendance.service.ts:1880-1932 | An accepted edit stores the given times, day, shift and status in that one record and leaves all others alone. |
| `PayrollPeriod.EditPays` | apps/api-gateway/src/attendance/attendance.service.ts:1880-1932 | Its minute columns deduct exactly the given break, and payable, overtime, late and early leave are what the policy makes of the given times and shift. |
| `PayrollPeriod.EditEndsBreaks` | apps/api-gateway/src/attendance/attendance.service.ts:3619-3636 | A clock-out ends the record's open breaks at that instant, with their minutes, and keeps the closed ones. |
| `OfflineSync.OfflineLedger.SyncOfflinePunch` | apps/api-gateway/src/attendance/attendance.service.ts:804-909 | One item, interrupted after any number of commits: the tables are those of that many commits, and an uninterrupted call answers what `ResponseTo` says. |
| `OfflineSync.OfflineLedger.SyncOfflinePunches` | apps/api-gateway/src/attendance/attendance.service.ts:779-802 | The batch loop: refused as a whole when the policy forbids it, otherwise the items one after the other with one answer each. |
| `OfflineSync.WholeIsThreeCommits` | apps/api-gateway/src/attendance/attendance.service.ts:804-909 | Ledger row, punch and ledger update, run to the end, amount to the direct description of one call. |
| `OfflineSync.AppliedExactly` | apps/api-gateway/src/attendance/attendance.service.ts:804-860 | An item is answered APPLIED if and only if its id is new, its time is given and not more than the grace minutes ago, its punch is accepted and the ledger update succeeds. |
| `OfflineSync.AppliedStores` | apps/api-gateway/src/attendance/attendance.service.ts:833-890 | Then the punch stored last in the record that the new ledger row names has the item's kind, the item's own time and the item's id, and nothing else changes. |
| `OfflineSync.PunchStepCounts` | apps/api-gateway/src/attendance/attendance.service.ts:506-655 | A transaction adds one punch if accepted and none otherwise, to the table and to the count of its mutation. |
| `OfflineSync.AppliedAtMostOnce` | apps/api-gateway/src/attendance/attendance.service.ts:804-909 | In every run of direct punches, syncs, retries, crashes between commits and failing ledger updates, each ledger row is replayed into at most one punch, and an APPLIED row into exactly one. |
| `OfflineSync.CarriersAreDirectOrReplayed` | apps/api-gateway/src/attendance/attendance.service.ts:523-637 | Over every run from any state, the stored punches carrying a client id grow by the accepted direct punches that carry it plus its replays: direct punches are never checked against the ledger. |
| `OfflineSync.CarriedAtMostOnceMore` | apps/api-gateway/src/attendance/attendance.service.ts:523-637 | So a client id is stored as often as accepted direct punches of the run carry it and at most once more, hence at most once if no direct punch carries it. |
| `OfflineSync.DirectPunchReplayedLater` | apps/api-gateway/src/attendance/attendance.service.ts:523-637 | Witness: a direct clock-in, a clock-out, and the same clock-in from the offline queue are stored with one id on two records. |
| `OfflineSync.CommitsOnlyMoveForward` | apps/api-gateway/src/attendance/attendance.service.ts:833-909 | Each commit only adds a ledger row or moves one from PENDING to its terminal status. |
| `OfflineSync.RunOnlyMovesForward` | apps/api-gateway/src/attendance/attendance.service.ts:833-909 | Over every run a terminal ledger row never changes again. |
| `OfflineSync.ReplayIsNoop` | apps/api-gateway/src/attendance/attendance.service.ts:779-802 | Re-sending any part of a batch, in any order and at any time, changes nothing, applies nothing and answers DUPLICATE exactly for what had been applied. |
| `OfflineSync.AppliedAnswersArePunches` | apps/api-gateway/src/attendance/attendance.service.ts:798-809 | Without failing ledger updates the number of APPLIED answers is the number of punches added to the table. |
| `OfflineSync.RejectedButPunchedExactly` | apps/api-gateway/src/attendance/attendance.service.ts:859-909 | A fresh mutation answered REJECTED has nevertheless been punched if and only if the ledger update failed after the punch was committed. |
| `OfflineSync.PunchReportedAsRejected` | apps/api-gateway/src/attendance/attendance.service.ts:859-909 | Witness: a failing ledger update, a stored punch, and a rejection reported. |
| `OfflineSync.FaultlessRunsAreTruthful` | apps/api-gateway/src/attendance/attendance.service.ts:804-909 | In every run without crashes and failing updates a mutation has been replayed if and only if its ledger row is APPLIED, and no row is PENDING. |
| `OfflineSync.KnownMutationIsSettled` | apps/api-gateway/src/attendance/attendance.service.ts:811-827 | Once a mutation has a ledger row, no later event changes the row or replays the mutation again; the punches carrying its id grow by accepted direct punches only. |
| `OfflineSync.CrashedStaysPending` | apps/api-gateway/src/attendance/attendance.service.ts:804-909 | A call leaves a PENDING row if and only if it crashes before its last commit, and the punch if and only if that commit was made; no later run or retry changes either. |
| `Metrics.RoundMinutesNearest` | apps/api-gateway/src/attendance/attendance.service.ts:5273-5278 | Rounded minutes are a multiple of the increment within half an increment; without an increment nothing changes. |
| `Metrics.RoundMinutesMonotone` | apps/api-gateway/src/attendance/attendance.service.ts:5273-5278 | Working more never rounds to less. |
| `Metrics.RoundingUpExactly` | apps/api-gateway/src/attendance/attendance.service.ts:5273-5278 | Rounding pays more than was worked exactly when the remainder is at least half an increment, less exactly when it is a smaller positive one. |
| `Metrics.MetricsAreConsistent` | apps/api-gateway/src/attendance/attendance.service.ts:4542-4581 | In every computed row overtime is at most payable, payable is a multiple of the increment within half an increment of worked minus break, and an unfinished record pays nothing. |
| `Metrics.LaterClockOut` | apps/api-gateway/src/attendance/attendance.service.ts:4542-4581 | A later clock-out never lowers actual, payable or overtime minutes, never raises early leave, and moves nothing else. |
| `Metrics.LaterClockIn` | apps/api-gateway/src/attendance/attendance.service.ts:4542-4581 | A later clock-in never raises actual, payable or overtime minutes, never lowers lateness, and moves nothing else. |
| `Metrics.GraceExactly` | apps/api-gateway/src/attendance/attendance.service.ts:4542-4581 | Late, early and overtime minutes are positive exactly beyond the grace periods (to the half minute) and the threshold, and regular time never exceeds the threshold. |
| `Metrics.MetricsColumns` | apps/api-gateway/src/attendance/attendance.service.ts:4542-4581 | Every column by itself: scheduled and actual time to the nearest minute, the break as given, payable the nearest multiple of the increment to their difference, overtime above the policy's threshold or the scheduled time, late and early leave beyond grace. |
| `TimeWindow.TimeWindowOverlapMinutes` | apps/api-gateway/src/attendance/attendance.service.ts:5049-5074 | The day loop: on whole minutes it returns the number of minutes of the shift that lie in the circular window. |
| `TimeWindow.OverlapIsExact` | apps/api-gateway/src/attendance/attendance.service.ts:5049-5074 | For every shift on whole minutes and bounds within a day, wrapped and equal bounds included, the paid minutes are exactly the minutes t with t mod 1440 in the window. |
| `TimeWindow.OverlapErrorBound` | apps/api-gateway/src/attendance/attendance.service.ts:5049-5074 | For arbitrary milliseconds the result is within half a minute per visited day of the true time in the window. |
| `TimeWindow.OverlapIsAdditive` | apps/api-gateway/src/attendance/attendance.service.ts:5049-5074 | Splitting a shift at any minute neither loses nor doubles window minutes. |
| `TimeWindow.ComplementaryWindowsCover` | apps/api-gateway/src/attendance/attendance.service.ts:5049-5074 | A window and the one with swapped bounds together pay exactly end minus start. |
| `TimeWindow.EqualBoundsCoverAll` | apps/api-gateway/src/attendance/attendance.service.ts:5060-5062 | Equal bounds pay every minute. |
| `Premium.AddPremium` | apps/api-gateway/src/attendance/attendance.service.ts:4952-4965 | One item adds at most the payable minutes, its units, and a label only if it adds minutes. |
| `Premium.CalculatePayrollPremium` | apps/api-gateway/src/attendance/attendance.service.ts:4944-4983 | The two loops over holidays and rules give the sums of the items' shares and units, and their labels in order. |
| `Premium.OrderDoesNotMatter` | apps/api-gateway/src/attendance/attendance.service.ts:4944-4983 | Minutes and units are the same for every ordering of holidays and of rules. |
| `Premium.PremiumIsBounded` | apps/api-gateway/src/attendance/attendance.service.ts:4944-5047 | No item pays more than the entry's payable minutes, and the total is at most payable times the number of applicable items. |
| `Premium.DayAndNightRulesCoverShift` | apps/api-gateway/src/attendance/attendance.service.ts:5027-5074 | A day rule and a night rule with swapped bounds pay exactly the worked time if and only if the entry's payable minutes reach the larger of the two windows' minutes. |
| `Premium.WeekdaysFollow` | apps/api-gateway/src/attendance/attendance.service.ts:4997-5003 | The epoch is a Thursday, each day is one weekday later, and a weekday lasts its whole day. |
| `Premium.RuleAppliesExactly` | apps/api-gateway/src/attendance/attendance.service.ts:4985-5025 | A rule applies if and only if the work date is within its first and last day, on one of its weekdays (Saturday and Sunday for a weekend rule without any), and the assignment is at every place it names. |
| `Premium.HolidayAppliesExactly` | apps/api-gateway/src/attendance/attendance.service.ts:4966-4970 | A holiday applies if and only if it is paid and on the entry's day. |
| `Premium.RulePays` | apps/api-gateway/src/attendance/attendance.service.ts:5027-5047 | An applicable rule pays its window's minutes as far as they are payable, and everything payable without both bounds and both clock times. |
| `Premium.OneMultiplier` | apps/api-gateway/src/attendance/attendance.service.ts:4952-4983 | Under one multiplier the units are the minutes times it. |
| `Premium.RuleLabelsInOrder` | apps/api-gateway/src/attendance/attendance.service.ts:4972-4978 | The labels are those of the paying rules, in their order. |
| `PayrollCsv.CsvRoundTrip` | apps/api-gateway/src/attendance/attendance.service.ts:5076-5142 | Reading the printed export by section 2 of RFC 4180 (line feed as the line break) gives back the header row and every cell text, whatever quotes, commas and line breaks the cells contain. |
| `PayrollCsv.CsvInjective` | apps/api-gateway/src/attendance/attendance.service.ts:5076-5142 | Two exports with the same text have the same rows of cell texts. |
| `PayrollCsv.LabelledCell` | apps/api-gateway/src/attendance/attendance.service.ts:5077-5131 | Looked up by header name, each of the 24 cells of a row is found at its own position. |
| `PayrollCsv.ColumnsByName` | apps/api-gateway/src/attendance/attendance.service.ts:5077-5131 | Each of the 24 header names reads back the field of the row that it names. |
| `Reconciliation.Confidence` | apps/api-gateway/src/attendance/attendance.service.ts:4198-4247 | The confidence of a match lies between 5 and 100. |
| `Reconciliation.FirstIsBest` | apps/api-gateway/src/attendance/attendance.service.ts:4198-4247 | The head of the stable sort is beaten by no candidate and beats every candidate listed before it. |
| `Reconciliation.BestMatchIsBest` | apps/api-gateway/src/attendance/attendance.service.ts:4198-4247 | The match is an admissible shift, with its own confidence and distances, that no admissible shift outranks by confidence, start distance, end distance; there is none exactly when no shift is admissible. |
| `Reconciliation.NearerScoresNoLower` | apps/api-gateway/src/attendance/attendance.service.ts:4203-4225 | A shift at least as near at both ends, and sharing at least as much of date and overnight, never has lower confidence. |
| `Reconciliation.ExactMatchIsCertain` | apps/api-gateway/src/attendance/attendance.service.ts:4203-4225 | A shift worked exactly as planned has confidence 100. |
| `Reconciliation.DeltasExactly` | apps/api-gateway/src/attendance/attendance.service.ts:4199-4212 | The distances are those of clock-in (or first punch, or work date) to the shift's start and of clock-out (or last punch) to its end, in whole minutes; same date and overnight are equality of calendar days. |
| `Reconciliation.PointsExactly` | apps/api-gateway/src/attendance/attendance.service.ts:4218-4225 | The confidence is 100 less a point per three minutes at the start up to 60 and per four at the end up to 35, or 8 without an end, plus 6 for the same date and 8 for two overnight spans, rounded and at most 100. |
| `Reconciliation.AdmissibleExactly` | apps/api-gateway/src/attendance/attendance.service.ts:4204-4216 | A shift is a candidate if and only if it starts within 18 hours of the work or lies within 6 hours of the worked time. |
| `Reconciliation.ActionExactly` | apps/api-gateway/src/attendance/attendance.service.ts:2960-2985 | A record is matched if and only if its best shift is another than the linked one and has at least 45 points. |
| `Reconciliation.LinkColumns` | apps/api-gateway/src/attendance/attendance.service.ts:2991-3012 | A linked record takes the shift and its bounds, keeps times and breaks, and its minutes are what its own policy makes of them for that shift. |
| `Reconciliation.SelectedExactly` | apps/api-gateway/src/attendance/attendance.service.ts:2920-2935 | Within the limit a run looks at exactly the unvoided records of the range, of the given employee if one is named. |
| `Reconciliation.PublishedExactly` | apps/api-gateway/src/attendance/attendance.service.ts:2936-2947 | The shifts of a run are exactly the live ones that start at most 18 hours before or after its range. |
| `Reconciliation.MatchIsOwnShift` | apps/api-gateway/src/attendance/attendance.service.ts:2948-2953 | The match is one of those shifts, of the same employee. |
| `Reconciliation.TieGoesToEarlier` | apps/api-gateway/src/attendance/attendance.service.ts:2944-2953 | Of equally good shifts the one that starts first is matched. |
| `Reconciliation.FoundInOrder` | apps/api-gateway/src/attendance/attendance.service.ts:2920-2935 | The records of a run come in the order of the query: work date, clock-in with nulls last, creation. |
| `Reconciliation.FoundIsComplete` | apps/api-gateway/src/attendance/attendance.service.ts:2920-2935 | Every record in the query's scope is found. |
| `Reconciliation.ApplyMatches` | apps/api-gateway/src/attendance/attendance.service.ts:2976-3022 | Exactly the selected records whose action is a match are linked to their best shift, each once; the count is the number of matches. |
| `Reconciliation.RunReconciliation` | apps/api-gateway/src/attendance/attendance.service.ts:2910-3062 | A dry run changes nothing; a real one leaves `ReconcileTable`; each of the four counts is the number of selected records with that action, they add up to the number evaluated, and what is applied is what matched. |
| `Reconciliation.SecondRunAppliesNothing` | apps/api-gateway/src/attendance/attendance.service.ts:2949-3050 | A second run over the same period, limit and schedule selects the same records, counts no match and leaves the table as it is. |
| `Reconciliation.ReconcileKeepsWork` | apps/api-gateway/src/attendance/attendance.service.ts:2985-3022 | A run never touches times, breaks, punches, status or employee of a record, and keeps overtime within payable. |
| `Timesheets.TimesheetStore.UpsertTimesheetEntry` | apps/api-gateway/src/attendance/attendance.service.ts:4468-4519 | Rewrites the first matching entry of one timesheet or appends one; other timesheets and the exceptions are untouched. |
| `Timesheets.TimesheetStore.RecalculateTimesheet` | apps/api-gateway/src/attendance/attendance.service.ts:4521-4540 | Stores the sums of the entries as totals and changes nothing else. |
| `Timesheets.TimesheetStore.GenerateTimesheet` | apps/api-gateway/src/attendance/attendance.service.ts:2422-2500 | One employee's transaction: refused and without effect on a final timesheet, otherwise the draft, all its entries, the missed clock-ins and the totals of `Generate`. |
| `Timesheets.FindEntryFinds` | apps/api-gateway/src/attendance/attendance.service.ts:4484-4496 | The upsert lookup returns the first entry that agrees on day and on every id given, and none exactly when none does. |
| `Timesheets.LookupFindsOwnEntry` | apps/api-gateway/src/attendance/attendance.service.ts:4484-4496 | Among the entries of one generation the lookup for a slot matches the slot's own entry and no other. |
| `Timesheets.GenerateSettles` | apps/api-gateway/src/attendance/attendance.service.ts:2422-2477 | After any generation each slot finds its own up-to-date entry first; the entries slots own are all new ones and those old ones the slots take over, in their order, each the first match that no earlier slot takes. |
| `Timesheets.LeftOverExactly` | apps/api-gateway/src/attendance/attendance.service.ts:4484-4496 | An entry of the generated timesheet belongs to no slot if and only if it is an old entry that no slot takes over, which is known before the generation, and then it is untouched. |
| `Timesheets.RegenerationIsIdempotent` | apps/api-gateway/src/attendance/attendance.service.ts:2422-2500 | Generating again from the same records, shifts and exceptions changes neither entries, totals nor exceptions, whatever the timesheet held before the first time. |
| `Timesheets.LateRecordAddsSecondEntry` | apps/api-gateway/src/attendance/attendance.service.ts:4484-4492 | In particular the entry of a shift entered as missed is left over once its record has arrived, and the shift gets another one with the record. |
| `Timesheets.LateRecordListsShiftTwice` | apps/api-gateway/src/attendance/attendance.service.ts:4484-4492 | Witness: a generation, a late record, a second generation, and two entries of one shift. |
| `Timesheets.MinutesAreAccountedFor` | apps/api-gateway/src/attendance/attendance.service.ts:2416-2477 | In every generation the entries' actual, payable and overtime minutes are those of the records, less those of dropped records (another record of the shift came first, or the shift is not live), plus those of the old entries that no slot takes over. |
| `Timesheets.ConservationExactly` | apps/api-gateway/src/attendance/attendance.service.ts:2455-2477 | So the timesheet reports exactly the recorded minutes if and only if the records to be dropped and the old entries not to be taken over hold the same amount, both known before the generation; on a first one, if and only if no dropped record holds any. |
| `Timesheets.LinkedRecordIsPaidTwice` | apps/api-gateway/src/attendance/attendance.service.ts:4484-4492 | Witness: a record of 480 payable minutes, generated as unscheduled, then linked to a shift and generated again, is paid 960. |
| `Timesheets.SecondRecordIsUnpaid` | apps/api-gateway/src/attendance/attendance.service.ts:2455-2473 | Witness: two records of one shift with 480 payable minutes each, and a timesheet of 480. |
| `Timesheets.RegularPlusOvertime` | apps/api-gateway/src/attendance/attendance.service.ts:4521-4540 | Regular plus overtime is payable, over any entries whose overtime is within payable. |
| `Timesheets.GenerateKeepsSheetsOk` | apps/api-gateway/src/attendance/attendance.service.ts:2416-2500 | Generation keeps every stored timesheet's totals equal to its entries' sums, with overtime within payable. |
| `TimesheetContents.FirstLinkedExactly` | apps/api-gateway/src/attendance/attendance.service.ts:2455-2456 | The record taken for a shift is the first of the employee's records that is linked to it. |
| `TimesheetContents.CountExactly` | apps/api-gateway/src/attendance/attendance.service.ts:4476-4483 | The exceptions counted for an entry are exactly the employee's waiting ones on its record and its shift. |
| `TimesheetContents.GenerationLists` | apps/api-gateway/src/attendance/attendance.service.ts:2455-2477 | After a generation every shift has an entry with its day, its planned minutes, the minutes of its first record (or its own break and nothing else) and its waiting exceptions, and so has every record without a shift. |
| `TimesheetContents.GenerationRaisesMissed` | apps/api-gateway/src/attendance/attendance.service.ts:2458-2469 | A generation keeps every exception and raises an open missed clock-in for exactly those shifts without a record that had none that was not cancelled. |
| `PayrollPeriod.PayrollService.CreateManualRecord` | apps/api-gateway/src/attendance/attendance.service.ts:1808-1932 | Succeeds exactly when the checks pass, then writes one record and closes its open breaks at the clock-out. |
| `PayrollPeriod.PayrollService.GenerateTimesheets` | apps/api-gateway/src/attendance/attendance.service.ts:2381-2532 | One transaction per employee in order of first appearance; the first final timesheet stops the loop and what was committed stays; it succeeds if and only if the period is valid and none of the employees has a final timesheet. |
| `PayrollPeriod.PayrollService.SubmitTimesheet` | apps/api-gateway/src/attendance/attendance.service.ts:2534-2591 | Submits any timesheet that is not final, and changes only its status. |
| `PayrollPeriod.PayrollService.DecideTimesheet` | apps/api-gateway/src/attendance/attendance.service.ts:2593-2658 | Sets the requested status from any status. |
| `PayrollPeriod.PayrollService.LockPayrollPeriod` | apps/api-gateway/src/attendance/attendance.service.ts:2688-2810 | Refused unless all timesheets found are approved or locked; then locks them and their entries and appends one ledger row. |
| `PayrollPeriod.PayrollService.ExportPayrollPeriod` | apps/api-gateway/src/attendance/attendance.service.ts:2812-2908 | Refused unless all timesheets found are locked; then only appends a ledger row. |
| `PayrollPeriod.RunKeepsInv` | apps/api-gateway/src/attendance/attendance.service.ts:4875-4933 | Over every run of punches, edits, reconciliations, generations, decisions, locks and exports, overtime stays within payable in every record and entry, and totals are those of the entries. |
| `PayrollPeriod.AmountsAddUp` | apps/api-gateway/src/attendance/attendance.service.ts:4875-4933 | Hence in every run regular plus overtime equals payable in each timesheet and equals gross payable in each export. |
| `PeriodContents.LedgerReports` | apps/api-gateway/src/attendance/attendance.service.ts:4875-4933 | In every run a lock or export that succeeds appends one ledger row for its period with as many rows as its timesheets have entries; overtime, gross, breaks and exceptions are the sums of the entries' own columns and regular is gross less overtime. |
| `PeriodContents.SheetTotalsReport` | apps/api-gateway/src/attendance/attendance.service.ts:4521-4540 | In every run a stored timesheet's totals are those sums over its own entries. |
| `PeriodContents.FoundKeysExactly` | apps/api-gateway/src/attendance/attendance.service.ts:4814-4837 | A lock or an export lists exactly the stored timesheets with the period's two bounds whose employee is in scope. |
| `PeriodContents.CanLockExactly` | apps/api-gateway/src/attendance/attendance.service.ts:2688-2720 | A period can be locked if and only if it has a timesheet in scope and all of those are approved or locked, and exported if and only if all are locked. |
| `PeriodContents.StatusAfter` | apps/api-gateway/src/attendance/attendance.service.ts:2534-2760 | The status of a timesheet after any step but a generation: submitted unless final, decided as asked, locked with its entries by a lock that lists it, and otherwise the old one; its amounts never change. |
| `PeriodContents.StatusAfterGeneration` | apps/api-gateway/src/attendance/attendance.service.ts:2432-2453 | A generation turns exactly the timesheets it gets through, none of them final, into drafts and leaves all others as they are. |
| `PeriodContents.RecordIdsExactly` | apps/api-gateway/src/attendance/attendance.service.ts:2395-2404 | The records of an employee's timesheet are exactly the employee's records dated from the period's first day to its last. |
| `PeriodContents.PeriodShiftsExactly` | apps/api-gateway/src/attendance/attendance.service.ts:2405-2413 | Its shifts are exactly the employee's live shifts dated so. |
| `PeriodContents.EmployeesExactly` | apps/api-gateway/src/attendance/attendance.service.ts:2416 | A generation goes through an employee if and only if they are in scope and have a record or a shift dated in the period. |
| `PeriodContents.EmployeesOnce` | apps/api-gateway/src/attendance/attendance.service.ts:2416 | It goes through nobody twice. |
| `PeriodContents.ReachedExactly` | apps/api-gateway/src/attendance/attendance.service.ts:2419-2436 | The loop stops at the first employee whose timesheet of the period is approved or locked, and gets through everybody if and only if there is none. |
| `PeriodContents.GenerationReportsRecords` | apps/api-gateway/src/attendance/attendance.service.ts:2381-2500 | After generating a period the draft of every employee the loop got through has the actual, payable and overtime minutes of all records in the table that are the employee's and of the period's days, less those of dropped records, plus those of entries it held before that no slot takes over. |
| `PeriodContents.EveryoneIsReported` | apps/api-gateway/src/attendance/attendance.service.ts:2381-2500 | So if nobody's timesheet is final, this holds of everybody in scope with a record or a shift in the period. |
| `PayrollPeriod.GeneratingAgainChangesNothing` | apps/api-gateway/src/attendance/attendance.service.ts:2381-2500 | Generating a period twice in a row, over all its employees and with or without a final timesheet among them, is the same as once. |
| `PayrollPeriod.OthersAreLeftAlone` | apps/api-gateway/src/attendance/attendance.service.ts:2422-2436 | Timesheets of other periods and of employees the loop did not get through are unchanged. |
| `PayrollPeriod.LockedIsFrozen` | apps/api-gateway/src/attendance/attendance.service.ts:2434-2548 | From its lock on, no run without a decision on that very timesheet changes its status, totals or entries. |
| `PayrollPeriod.LockedChangesExactly` | apps/api-gateway/src/attendance/attendance.service.ts:2605-2617 | A step changes a locked timesheet if and only if it is a decision on it with another of the four statuses a decision may set, and then it changes only the status. |
| `PayrollPeriod.LockReportsLocked` | apps/api-gateway/src/attendance/attendance.service.ts:2697-2760 | The totals in a lock's ledger row are those of the locked state it leaves behind. |
| `PayrollPeriod.ExportMatchesLock` | apps/api-gateway/src/attendance/attendance.service.ts:2827-2857 | After a lock and any run without a decision on its timesheets, an export of the same timesheets succeeds and has the totals of the lock ledger. |
| `PayrollPeriod.AdjustSparesFinalRecords` | apps/api-gateway/src/attendance/attendance.service.ts:3638-3655 | No edit or correction changes a record that an approved or locked timesheet lists. |
| `PayrollPeriod.FinalRecordsChangeExactly` | apps/api-gateway/src/attendance/attendance.service.ts:2991-3022 | A step changes such a record if and only if it is a real reconciliation that selects it with a new match, or an accepted punch whose employee has it as the open record. |
| `PayrollPeriod.ReconciliationRewritesLockedRecord` | apps/api-gateway/src/attendance/attendance.service.ts:2991-3022 | Witness: reconciliation gives a record behind a locked timesheet 120 overtime minutes that the timesheet does not have. |
| `Credentials.AuthService.IssueCredentials` | apps/api-gateway/src/auth/auth.service.ts:651-718 | Adds one session and one refresh token with the two lifetimes, and nothing else. |
| `Credentials.AuthService.RevokeAllIdentityCredentials` | apps/api-gateway/src/auth/auth.service.ts:740-759 | Revokes the unrevoked credentials of the identity, or of the user when the row has no identity. |
| `Credentials.AuthService.DoLogin` | apps/api-gateway/src/auth/auth.service.ts:68-115 | Issues a pair that starts a lineage if and only if the password is accepted, the lock has passed and identity, membership and user are active; otherwise changes nothing. |
| `Credentials.AuthService.DoRefresh` | apps/api-gateway/src/auth/auth.service.ts:117-168 | Rotates a live token, revokes the whole identity on a dead one, and otherwise changes nothing. |
| `Credentials.AuthService.DoLogout` | apps/api-gateway/src/auth/auth.service.ts:315-341 | Revokes the presented pair. |
| `Credentials.AuthService.DoRevokeSession` | apps/api-gateway/src/auth/auth.service.ts:367-380 | Revokes the session only if it is the user's own. |
| `Credentials.AuthService.DoRevokeOtherSessions` | apps/api-gateway/src/auth/auth.service.ts:382-423 | Revokes the user's other sessions, and other refresh tokens only if the current one is presented. |
| `Credentials.AuthService.DoSwitchWorkspace` | apps/api-gateway/src/auth/auth.service.ts:435-506 | Within one identity: revokes the presented pair and issues one for the other workspace, in one step. |
| `Credentials.AuthService.ValidateAccessToken` | apps/api-gateway/src/auth/auth.service.ts:513-554 | Accepts exactly the stored, unrevoked, unexpired sessions of active people and returns their user. |
| `Credentials.RunKeepsInv` | apps/api-gateway/src/auth/auth.service.ts:117-168 | In every run each login or switch starts a lineage with at most one live refresh token. |
| `Credentials.IssuedTokenIsTheTip` | apps/api-gateway/src/auth/auth.service.ts:142-157 | Issuing leaves its lineage with exactly one live token, the new one; a refresh hands lineage and user on, a login or switch opens a lineage; the new access token is valid for exactly 15 minutes and the refresh token usable for exactly 30 days. |
| `Credentials.SignedInAfterwards` | apps/api-gateway/src/auth/auth.service.ts:315-423 | Signing out other sessions leaves the current one and everybody else's as they were; a logout ends exactly the presented pair. |
| `Credentials.OneSignOutKeepsRefreshTokens` | apps/api-gateway/src/auth/auth.service.ts:343-380 | Signing out one session ends exactly that session if it is the user's own and no refresh token; signing out everywhere ends every credential of the identity. |
| `Credentials.SignedOutSessionComesBack` | apps/api-gateway/src/auth/auth.service.ts:367-380 | A user whose session was signed out gets a new one with any refresh token if and only if it was usable; after signing out everywhere none refreshes. |
| `Credentials.RevocationIsPermanent` | apps/api-gateway/src/auth/auth.service.ts:117-168 | From any point of any run to its end, stored credentials stay stored and revoked ones keep their time of revocation. |
| `Credentials.RefreshesAtMostOnce` | apps/api-gateway/src/auth/auth.service.ts:136-150 | In no run does a refresh token refresh twice; the second attempt is treated as a replay. |
| `Credentials.ReplayRevokesIdentity` | apps/api-gateway/src/auth/auth.service.ts:136-139 | Presenting a dead token leaves no live credential of the identity, in any workspace. |
| `Credentials.StaysRevoked` | apps/api-gateway/src/auth/auth.service.ts:435-506 | That lasts over every run without a login of the identity: refresh and switch need a live credential of it. |
| `Credentials.ReplayLocksOut` | apps/api-gateway/src/auth/auth.service.ts:136-139 | After a replay no access token of the identity validates and none of its refresh tokens refreshes until it logs in again. |
| `Credentials.OthersStaySignedIn` | apps/api-gateway/src/auth/auth.service.ts:740-759 | After a replay or signing out everywhere every session and refresh token of another identity is the same row, so it validates and refreshes exactly as before. |
| `Credentials.WithoutIdentityOneUser` | apps/api-gateway/src/auth/auth.service.ts:740-759 | Without an identity the same call ends the rows of that user, all of them and nobody else's. |
| `Credentials.LoginTouchesOnly` | apps/api-gateway/src/auth/auth.service.ts:68-115 | A login adds one session and one refresh token of the user and touches no other row. |
| `Credentials.RefreshTouchesOnly` | apps/api-gateway/src/auth/auth.service.ts:142-157 | A refresh ends the presented token, adds a pair of the same user and touches no other row. |
| `Credentials.SwitchTouchesOnly` | apps/api-gateway/src/auth/auth.service.ts:435-506 | A switch ends the presented pair, adds one of the target user within the same identity and touches no other row. |
| `Credentials.RevokedAtItsTime` | apps/api-gateway/src/auth/auth.service.ts:740-759 | What a call revokes carries the time of the call, and nothing is revoked twice. |
| `Credentials.OnlyActivePeople` | apps/api-gateway/src/auth/auth.service.ts:513-554 | Credentials are issued only to people active in all three roles, and at login only with the right password and no running lock. |
| `Buckets.ResolvePeriod` | apps/api-gateway/src/dashboard/dashboard.service.ts:2005-2036 | Fails exactly for a custom period without a start or with a start after its end; otherwise the period ends as asked, starts as its key says and is cut into days up to 45 days, into months beyond. |
| `Buckets.CutPeriod` | apps/api-gateway/src/dashboard/dashboard.service.ts:2047-2073 | The loop terminates with one bucket for each calendar unit from the period's first to its last, the last one cut off at the period's end. |
| `Buckets.BuildBuckets` | apps/api-gateway/src/dashboard/dashboard.service.ts:2047-2073 | Buckets are consecutive and non-empty from the start of the first unit exactly to the period's end; a day period of at most 45 days has at most 46. |
| `Buckets.BucketsPartition` | apps/api-gateway/src/dashboard/dashboard.service.ts:2053-2073 | For any calendar the buckets leave no gap and do not overlap, and the first starts no later than the period. |
| `Buckets.BucketOfInstant` | apps/api-gateway/src/dashboard/dashboard.service.ts:2053-2073 | An instant lies in a bucket if and only if the bucket's label is the instant's own day or month. |
| `Buckets.BucketCountsAddUp` | apps/api-gateway/src/dashboard/dashboard.service.ts:1809-1858 | Hires and separations of the buckets add up to those of the whole covered range. |
| `Buckets.HeadcountFollowsHires` | apps/api-gateway/src/dashboard/dashboard.service.ts:1815-1826 | From bucket to bucket the headcount grows by the unarchived hires and never falls: separations do not lower it. |
| `Buckets.HeadcountIsRightExactly` | apps/api-gateway/src/dashboard/dashboard.service.ts:1815-1826 | The reported headcount exceeds the people on board by exactly those counted who have left, and is right if and only if there are none. |
| `Buckets.LeaverIsStillCounted` | apps/api-gateway/src/dashboard/dashboard.service.ts:1815-1826 | Witness: an employee gone since 10 is counted at 20. |
| `Buckets.TrendCounts` | apps/api-gateway/src/dashboard/dashboard.service.ts:1815-1841 | Each point counts, for its own bucket, the unarchived employees hired by its end or at an unknown date, those hired within it, and the terminal ones whose end date lies within it. |
| `Buckets.TrendExcess` | apps/api-gateway/src/dashboard/dashboard.service.ts:1815-1826 | So each point exceeds the people on board at its bucket's end by exactly those counted who have left. |
| `Calendar.MonthLength` | apps/api-gateway/src/dashboard/dashboard.service.ts:2050-2060 | Consecutive months of the UTC calendar, leap years and year ends included, are a month's number of days apart. |
| `Calendar.MonthsAreAnchored` | apps/api-gateway/src/dashboard/dashboard.service.ts:2050-2060 | January 1970 starts at 0, March 2000 and March 1900 at their instants, so with the month lengths every month start is fixed. |
| `Calendar.UnitIsUnique` | apps/api-gateway/src/dashboard/dashboard.service.ts:2048-2051 | An instant falls into exactly one unit of an ascending calendar. |

## Left out

- Audit, timeline, outbox, notification, login-history and metadata writes, and the `lastLoginAt` columns: append-only or never read back by what is modelled.
- Device, geofence, source, attestation, place and status rules: each policy evaluation is an arbitrary block or allow in the request; only the clock-range rules are modelled. References of an assignment to employees, positions, units, grades and designations are one flag.
- True concurrency and isolation levels: transactions run one after the other. Crashes are modelled for offline sync only.
- Credentials: what a call finds of the identity, membership and user (their status, deletion mark, lock and password) is an argument, because those tables are written elsewhere; so is the user a login resolves to. Hashing is taken to be injective, and a drawn token that already exists fails the call as the unique index would. A token's lineage is history, not a column. Token lifetimes are the defaults of 15 minutes and 30 days. A refresh does not revoke the old session in the code, and does not in the model.
- Records hold the policy and shift they were written with by value: later edits of a policy or shift row do not reach records already linked to it. A correction that names a record is refused when the record is not the employee's, as a manual edit is.
- Exceptions other than a missed clock-in: the rows written at clock-out and by exception workflows are covered by a step that replaces the exceptions arbitrarily.
- Reconciliation: dimension, search and location filters, and the columns for time zone and location name. Scores are exact twelfths instead of floating point.
- Unordered `findFirst` queries return the first row in table order; the timesheet's slots are computed before its loops, which read only tables the loops do not write.
- The actor's scope over employees is a list; the order of timesheets in an export follows it. The premium totals of the export ledger are not part of `PayrollPeriod`.
- Premium multipliers and units are whole hundredths instead of floating point numbers rounded to hundredths.
- CSV number columns carry the text they are printed as; printing a number or date as text is not modelled.
- Mutation ids are taken as already trimmed; the sizes of batches and request validation by decorators are left out.
- Calendar fields of a date are found by walking the calendar from a given unit and, in the bucket loop, carrying the unit along; bucket labels are the unit, not its text.
- Budgets and the workforce directory (which user belongs to which identity) do not change during a run.
- Database access, controllers, guards, configuration, list and filter endpoints, documents, forms, leave and scheduling, supervisor board, alerts, dashboard counts and scores: input and output around the modelled rules, or weak properties.
