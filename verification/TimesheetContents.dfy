/** The rows of a generated timesheet and the exceptions it raises, column by column. */
module TimesheetContents {
  import opened Time
  import opened Wrappers
  import opened Metrics
  import opened Punches
  import opened Timesheets

  /** Record `id` is the first of the employee's records that is linked to the shift. */
  predicate FirstOfShift(i: Input, id: nat, shift: nat) {
    exists k | 0 <= k < |i.ids| ::
      && i.ids[k] == id && LinkedTo(i.records, id, shift)
      && forall j | 0 <= j < k :: !LinkedTo(i.records, i.ids[j], shift)
  }

  predicate WithoutRecord(i: Input, shift: nat) {
    forall k | 0 <= k < |i.ids| :: !LinkedTo(i.records, i.ids[k], shift)
  }

  lemma {:induction false} FirstLinkedAt(records: seq<Record>, ids: seq<nat>, shift: nat, k: nat)
    requires k < |ids| && LinkedTo(records, ids[k], shift)
    requires forall j | 0 <= j < k :: !LinkedTo(records, ids[j], shift)
    ensures FirstLinked(records, ids, shift) == Some(ids[k])
    decreases k
  {
    if k > 0 {
      FirstLinkedAt(records, ids[1..], shift, k - 1);
    }
  }

  lemma {:induction false} FirstLinkedSplits(records: seq<Record>, ids: seq<nat>, shift: nat) returns (k: nat)
    requires FirstLinked(records, ids, shift).Some?
    ensures k < |ids| && LinkedTo(records, ids[k], shift) && FirstLinked(records, ids, shift) == Some(ids[k])
    ensures forall j | 0 <= j < k :: !LinkedTo(records, ids[j], shift)
  {
    if LinkedTo(records, ids[0], shift) {
      k := 0;
    } else {
      k := FirstLinkedSplits(records, ids[1..], shift);
      k := k + 1;
    }
  }

  lemma FirstLinkedExactly(i: Input, shift: nat, id: nat)
    ensures FirstLinked(i.records, i.ids, shift) == Some(id) <==> FirstOfShift(i, id, shift)
  {
    if FirstLinked(i.records, i.ids, shift) == Some(id) {
      var k := FirstLinkedSplits(i.records, i.ids, shift);
    }
    forall k: nat | k < |i.ids| && i.ids[k] == id && LinkedTo(i.records, id, shift) && forall j | 0 <= j < k :: !LinkedTo(i.records, i.ids[j], shift)
      ensures FirstLinked(i.records, i.ids, shift) == Some(id)
    {
      FirstLinkedAt(i.records, i.ids, shift, k);
    }
  }

  // ---------------------------------------------------------------- counting exceptions

  /** An exception of the employee that waits for a decision, on the record and the shift, if given. */
  predicate Waits(x: ExceptionRow, e: EmployeeId, record: Option<nat>, shift: Option<nat>) {
    && x.employee == e && (x.status == OpenException || x.status == SubmittedException)
    && (record.Some? ==> x.record == record) && (shift.Some? ==> x.shift == shift)
  }

  function WaitingAt(exceptions: seq<ExceptionRow>, e: EmployeeId, record: Option<nat>, shift: Option<nat>): set<nat> {
    set k: nat | k < |exceptions| && Waits(exceptions[k], e, record, shift)
  }

  function ShiftId(slot: Slot): Option<nat> { if slot.shift.Some? then Some(slot.shift.value.id) else None }

  lemma {:induction false} CountExactly(exceptions: seq<ExceptionRow>, e: EmployeeId, slot: Slot)
    ensures CountExceptions(exceptions, e, slot) == |WaitingAt(exceptions, e, slot.record, ShiftId(slot))|
  {
    if exceptions == [] {
      assert WaitingAt(exceptions, e, slot.record, ShiftId(slot)) == {};
    } else {
      var n := |exceptions| - 1;
      CountExactly(exceptions[..n], e, slot);
      var before := WaitingAt(exceptions[..n], e, slot.record, ShiftId(slot));
      assert WaitingAt(exceptions, e, slot.record, ShiftId(slot))
          == if Waits(exceptions[n], e, slot.record, ShiftId(slot)) then before + {n} else before;
    }
  }

  // ---------------------------------------------------------------- the rows of a timesheet

  predicate CountsExceptions(x: Entry, exceptions: seq<ExceptionRow>, e: EmployeeId, record: Option<nat>, shift: Option<nat>) {
    && x.exceptions == |WaitingAt(exceptions, e, record, shift)|
    && (x.exceptions == 0 ==> x.status == Ready) && (x.exceptions > 0 ==> x.status == HasExceptions)
  }

  predicate TakesMinutes(x: Entry, m: Minutes) {
    x.actual == m.actual && x.breaks == m.breaks && x.payable == m.payable && x.overtime == m.overtime
  }

  /** The entry of a shift: its day and planned time, and the minutes of its first record. */
  predicate IsShiftRow(x: Entry, i: Input, exceptions: seq<ExceptionRow>, shift: Shift) {
    && x.shift == Some(shift.id) && x.workDate == shift.workDate - shift.workDate % 86_400_000
    && MinutesBeyond(shift.endsAt - shift.startsAt, shift.breakMinutes, x.scheduled)
    && (x.record.Some? ==>
          && x.record.value < |i.records| && FirstOfShift(i, x.record.value, shift.id)
          && TakesMinutes(x, i.records[x.record.value].minutes))
    && (x.record.None? ==>
          && WithoutRecord(i, shift.id)
          && TakesMinutes(x, Minutes(0, 0, shift.breakMinutes, 0, 0, 0, 0)))
    && CountsExceptions(x, exceptions, i.key.employee, x.record, Some(shift.id))
  }

  /** The entry of a record without a shift. */
  predicate IsRecordRow(x: Entry, i: Input, exceptions: seq<ExceptionRow>, id: nat) {
    && id < |i.records| && x.record == Some(id) && x.shift.None?
    && x.workDate == i.records[id].workDate - i.records[id].workDate % 86_400_000
    && x.scheduled == i.records[id].minutes.scheduled && TakesMinutes(x, i.records[id].minutes)
    && CountsExceptions(x, exceptions, i.key.employee, Some(id), None)
  }

  lemma ShiftRow(i: Input, exceptions: seq<ExceptionRow>, shift: Shift)
    requires ValidInput(i)
    ensures var slot := Slot(FirstLinked(i.records, i.ids, shift.id), Some(shift));
            IsShiftRow(EntryFor(i.records, slot, CountExceptions(exceptions, i.key.employee, slot)), i, exceptions, shift)
  {
    var slot := Slot(FirstLinked(i.records, i.ids, shift.id), Some(shift));
    FirstLinkedFinds(i.records, i.ids, shift.id);
    if slot.record.Some? {
      FirstLinkedExactly(i, shift.id, slot.record.value);
    }
    CountExactly(exceptions, i.key.employee, slot);
    DurationIsBeyond(shift.startsAt, shift.endsAt, shift.breakMinutes);
  }

  lemma RecordRow(i: Input, exceptions: seq<ExceptionRow>, id: nat)
    requires id < |i.records| && i.records[id].shift.None?
    ensures var slot := Slot(Some(id), None);
            IsRecordRow(EntryFor(i.records, slot, CountExceptions(exceptions, i.key.employee, slot)), i, exceptions, id)
  {
    CountExactly(exceptions, i.key.employee, Slot(Some(id), None));
  }

  lemma {:induction false} UnlinkedExactly(records: seq<Record>, ids: seq<nat>, id: nat)
    ensures id in UnlinkedIds(records, ids) <==> id in ids && id < |records| && records[id].shift.None?
    decreases |ids|
  {
    if ids != [] {
      var n := |ids| - 1;
      UnlinkedExactly(records, ids[..n], id);
      assert ids == ids[..n] + [ids[n]];
    }
  }

  ghost predicate HasShiftRow(b: Book, i: Input, shift: Shift)
    requires i.key in b.sheets
  {
    exists k | 0 <= k < |b.sheets[i.key].entries| :: IsShiftRow(b.sheets[i.key].entries[k], i, b.exceptions, shift)
  }

  ghost predicate HasRecordRow(b: Book, i: Input, id: nat)
    requires i.key in b.sheets
  {
    exists k | 0 <= k < |b.sheets[i.key].entries| :: IsRecordRow(b.sheets[i.key].entries[k], i, b.exceptions, id)
  }

  lemma SlotHasRow(b: Book, i: Input, j: nat) returns (k: nat)
    requires Settled(b, i) && j < |Slots(i)|
    ensures k < |b.sheets[i.key].entries|
    ensures b.sheets[i.key].entries[k]
         == EntryFor(i.records, Slots(i)[j], CountExceptions(b.exceptions, i.key.employee, Slots(i)[j]))
  {
    assert UpToDate(Progress(b.sheets[i.key].entries, b.exceptions), i, Slots(i)[j]);
    k := FindEntry(b.sheets[i.key].entries, i.records, Slots(i)[j]).value;
  }

  /** After a generation every shift has a row with its plan, the minutes of its first record and its waiting
      exceptions, and so has every record without a shift. */
  lemma GenerationLists(b: Book, i: Input)
    requires ValidInput(i) && CanGenerate(b, i.key)
    ensures i.key in Generate(b, i).sheets
    ensures forall shift | shift in i.shifts :: HasShiftRow(Generate(b, i), i, shift)
    ensures forall id: nat | id in i.ids && i.records[id].shift.None? :: HasRecordRow(Generate(b, i), i, id)
  {
    var b' := Generate(b, i);
    GenerateSettles(b, i);
    forall shift | shift in i.shifts
      ensures HasShiftRow(b', i, shift)
    {
      var j: nat :| j < |i.shifts| && i.shifts[j] == shift;
      assert Slots(i)[j] == Slot(FirstLinked(i.records, i.ids, shift.id), Some(shift));
      var k := SlotHasRow(b', i, j);
      ShiftRow(i, b'.exceptions, shift);
    }
    forall id: nat | id in i.ids && i.records[id].shift.None?
      ensures HasRecordRow(b', i, id)
    {
      UnlinkedExactly(i.records, i.ids, id);
      var ids := UnlinkedIds(i.records, i.ids);
      var j: nat :| j < |ids| && ids[j] == id;
      assert Slots(i)[|i.shifts| + j] == Slot(Some(id), None);
      var k := SlotHasRow(b', i, |i.shifts| + j);
      RecordRow(i, b'.exceptions, id);
    }
  }

  // ---------------------------------------------------------------- the exceptions it raises

  /** A missed clock-in of the employee for a shift, not cancelled. */
  predicate MissedAt(exceptions: seq<ExceptionRow>, e: EmployeeId, shift: nat) {
    exists k | 0 <= k < |exceptions| ::
      && exceptions[k].employee == e && exceptions[k].record.None? && exceptions[k].shift == Some(shift)
      && exceptions[k].kind == MissedClockIn && exceptions[k].status != CancelledException
  }

  lemma {:induction false} HasMissedExactly(exceptions: seq<ExceptionRow>, e: EmployeeId, shift: nat)
    ensures HasMissed(exceptions, e, shift) <==> MissedAt(exceptions, e, shift)
  {
    if exceptions != [] {
      var n := |exceptions| - 1;
      HasMissedExactly(exceptions[..n], e, shift);
      assert forall k | 0 <= k < n :: exceptions[..n][k] == exceptions[k];
    }
  }

  /** The exception is an open missed clock-in for a shift of the input without a record. */
  predicate Raised(x: ExceptionRow, i: Input) {
    && x.employee == i.key.employee && x.record.None? && x.kind == MissedClockIn && x.status == OpenException
    && exists j | 0 <= j < |i.shifts| :: x.shift == Some(i.shifts[j].id) && WithoutRecord(i, i.shifts[j].id)
  }

  /** Row `k` was there before, or is new and raised for a shift that had no missed clock-in yet. */
  ghost predicate KeptOrRaised(before: seq<ExceptionRow>, after: seq<ExceptionRow>, i: Input, k: nat)
    requires k < |after|
  {
    && (k < |before| ==> after[k] == before[k])
    && (k >= |before| ==> Raised(after[k], i) && !MissedAt(after[..k], i.key.employee, after[k].shift.value))
  }

  lemma SlotRaises(before: seq<ExceptionRow>, after: seq<ExceptionRow>, i: Input, j: nat, k: nat)
    requires j < |Slots(i)| && |before| <= |after| && (k < |after| ==> KeptOrRaised(before, after, i, k))
    ensures var next := ExceptionsAfter(after, i.key.employee, Slots(i)[j]);
            |before| <= |next| && (k < |next| ==> KeptOrRaised(before, next, i, k))
  {
    var slot := Slots(i)[j];
    if slot.shift.Some? {
      FirstLinkedFinds(i.records, i.ids, slot.shift.value.id);
    }
    var next := ExceptionsAfter(after, i.key.employee, slot);
    if next != after {
      HasMissedExactly(after, i.key.employee, slot.shift.value.id);
      assert next[..|after|] == after;
      if k < |after| {
        assert next[..k] == after[..k];
      }
    }
  }

  lemma {:induction false} PassRaises(p: Progress, i: Input, slots: seq<Slot>, n: nat, k: nat)
    requires slots == Slots(i) && n <= |slots|
    ensures var after := ProcessAll(p, i, slots[..n]).exceptions;
            |p.exceptions| <= |after| && (k < |after| ==> KeptOrRaised(p.exceptions, after, i, k))
    decreases n
  {
    if n > 0 {
      var m: nat := n - 1;
      PassRaises(p, i, slots, m, k);
      ProcessPrefix(p, i, slots, m);
      SlotRaises(p.exceptions, ProcessAll(p, i, slots[..m]).exceptions, i, m, k);
    }
  }

  /** A generation keeps every exception as it is, raises an open missed clock-in for exactly those shifts
      without a record that had none that was not cancelled, and nothing else. */
  lemma GenerationRaisesMissed(b: Book, i: Input)
    requires ValidInput(i) && CanGenerate(b, i.key)
    ensures |b.exceptions| <= |Generate(b, i).exceptions|
    ensures forall k: nat | k < |Generate(b, i).exceptions| :: KeptOrRaised(b.exceptions, Generate(b, i).exceptions, i, k)
    ensures forall j | 0 <= j < |i.shifts| && WithoutRecord(i, i.shifts[j].id) ::
              MissedAt(Generate(b, i).exceptions, i.key.employee, i.shifts[j].id)
  {
    var b' := Generate(b, i);
    assert Slots(i)[..|Slots(i)|] == Slots(i);
    PassRaises(Progress(DraftOf(b.sheets, i.key).entries, b.exceptions), i, Slots(i), |Slots(i)|, 0);
    forall k: nat | k < |b'.exceptions|
      ensures KeptOrRaised(b.exceptions, b'.exceptions, i, k)
    {
      PassRaises(Progress(DraftOf(b.sheets, i.key).entries, b.exceptions), i, Slots(i), |Slots(i)|, k);
    }
    GenerateSettles(b, i);
    forall j | 0 <= j < |i.shifts| && WithoutRecord(i, i.shifts[j].id)
      ensures MissedAt(b'.exceptions, i.key.employee, i.shifts[j].id)
    {
      FirstLinkedFinds(i.records, i.ids, i.shifts[j].id);
      assert Slots(i)[j] == Slot(None, Some(i.shifts[j]));
      assert UpToDate(Progress(b'.sheets[i.key].entries, b'.exceptions), i, Slots(i)[j]);
      HasMissedExactly(b'.exceptions, i.key.employee, i.shifts[j].id);
    }
  }
}
