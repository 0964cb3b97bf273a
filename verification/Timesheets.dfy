/** Generating timesheets from attendance records and the published schedule. */
module Timesheets {
  import opened Time
  import opened Wrappers
  import opened Metrics
  import opened Punches
  import opened Sums

  datatype ExceptionType = MissedClockIn | OtherException

  datatype ExceptionStatus = OpenException | SubmittedException | DecidedException | CancelledException

  datatype ExceptionRow = ExceptionRow(
    employee: EmployeeId, record: Option<nat>, shift: Option<nat>, kind: ExceptionType, status: ExceptionStatus)

  datatype EntryStatus = Ready | HasExceptions | LockedEntry

  datatype Entry = Entry(
    record: Option<nat>, shift: Option<nat>, workDate: int,
    scheduled: nat, actual: nat, breaks: nat, payable: nat, overtime: nat,
    exceptions: nat, status: EntryStatus)

  datatype SheetStatus = Draft | Submitted | Approved | Rejected | Locked | Reopened

  datatype Totals = Totals(regular: nat, overtime: nat, breaks: nat, exceptions: nat)

  datatype Sheet = Sheet(status: SheetStatus, totals: Totals, entries: seq<Entry>)

  /** A timesheet's unique index; both ends are already widened to whole days. */
  datatype Key = Key(employee: EmployeeId, start: int, end: int)

  predicate Final(status: SheetStatus) { status == Approved || status == Locked }

  /** What one employee's timesheet is generated from: table rows by id, and live shifts. */
  datatype Input = Input(key: Key, records: seq<Record>, ids: seq<nat>, shifts: seq<Shift>)

  ghost predicate Distinct(ids: seq<nat>) {
    forall j, k | 0 <= j < k < |ids| :: ids[j] != ids[k]
  }

  /** Ids are primary keys, so neither list repeats one. */
  ghost predicate ValidInput(i: Input) {
    && (forall k | 0 <= k < |i.ids| :: i.ids[k] < |i.records|)
    && Distinct(i.ids)
    && (forall j, k | 0 <= j < k < |i.shifts| :: i.shifts[j].id != i.shifts[k].id)
  }

  // ---------------------------------------------------------------- one entry

  /** What one timesheet entry is made for: a shift with or without a record, or an unlinked record. */
  datatype Slot = Slot(record: Option<nat>, shift: Option<Shift>)

  predicate LinkedTo(records: seq<Record>, id: nat, shift: nat) {
    id < |records| && records[id].shift.Some? && records[id].shift.value.id == shift
  }

  predicate Unlinked(records: seq<Record>, id: nat) { id < |records| && records[id].shift.None? }

  /** The first of the records that is linked to the shift. */
  function FirstLinked(records: seq<Record>, ids: seq<nat>, shift: nat): Option<nat> {
    if ids == [] then None
    else if LinkedTo(records, ids[0], shift) then Some(ids[0])
    else FirstLinked(records, ids[1..], shift)
  }

  lemma {:induction false} FirstLinkedFinds(records: seq<Record>, ids: seq<nat>, shift: nat)
    ensures var r := FirstLinked(records, ids, shift);
            && (r.Some? ==> r.value in ids && LinkedTo(records, r.value, shift))
            && (r.None? ==> forall k | 0 <= k < |ids| :: !LinkedTo(records, ids[k], shift))
  {
    if ids != [] {
      FirstLinkedFinds(records, ids[1..], shift);
    }
  }

  function SlotDate(records: seq<Record>, slot: Slot): int {
    if slot.shift.Some? then StartOfDay(slot.shift.value.workDate)
    else if slot.record.Some? && slot.record.value < |records| then StartOfDay(records[slot.record.value].workDate)
    else 0
  }

  predicate IsOpen(status: ExceptionStatus) { status == OpenException || status == SubmittedException }

  predicate Concerns(x: ExceptionRow, e: EmployeeId, slot: Slot) {
    && x.employee == e
    && (slot.record.Some? ==> x.record == slot.record)
    && (slot.shift.Some? ==> x.shift == Some(slot.shift.value.id))
    && IsOpen(x.status)
  }

  function CountExceptions(exceptions: seq<ExceptionRow>, e: EmployeeId, slot: Slot): nat {
    if exceptions == [] then 0
    else CountExceptions(exceptions[..|exceptions| - 1], e, slot)
         + (if Concerns(exceptions[|exceptions| - 1], e, slot) then 1 else 0)
  }

  predicate IsMissed(x: ExceptionRow, e: EmployeeId, shift: nat) {
    x.employee == e && x.record.None? && x.shift == Some(shift) && x.kind == MissedClockIn && x.status != CancelledException
  }

  predicate HasMissed(exceptions: seq<ExceptionRow>, e: EmployeeId, shift: nat) {
    exceptions != []
    && (IsMissed(exceptions[|exceptions| - 1], e, shift) || HasMissed(exceptions[..|exceptions| - 1], e, shift))
  }

  /** Upserting keeps an existing exception's status, so a waived one stays waived. */
  function UpsertMissed(exceptions: seq<ExceptionRow>, e: EmployeeId, shift: nat): seq<ExceptionRow> {
    if HasMissed(exceptions, e, shift) then exceptions
    else exceptions + [ExceptionRow(e, None, Some(shift), MissedClockIn, OpenException)]
  }

  function EntryFor(records: seq<Record>, slot: Slot, exceptions: nat): Entry {
    var r := if slot.record.Some? && slot.record.value < |records| then Some(records[slot.record.value]) else None;
    var shift := slot.shift;
    var scheduled :=
      if shift.Some? then DurationMinutes(shift.value.startsAt, shift.value.endsAt, shift.value.breakMinutes)
      else if r.Some? then r.value.minutes.scheduled else 0;
    var breaks :=
      if r.Some? then r.value.minutes.breaks else if shift.Some? then shift.value.breakMinutes else 0;
    var link :=
      if shift.Some? then Some(shift.value.id)
      else if r.Some? && r.value.shift.Some? then Some(r.value.shift.value.id) else None;
    var m := if r.Some? then r.value.minutes else Minutes(0, 0, 0, 0, 0, 0, 0);
    Entry(slot.record, link, SlotDate(records, slot), scheduled, m.actual, breaks, m.payable, m.overtime,
          exceptions, if exceptions > 0 then HasExceptions else Ready)
  }

  predicate IsEntryOf(entry: Entry, records: seq<Record>, slot: Slot) {
    && entry.workDate == SlotDate(records, slot)
    && (slot.record.Some? ==> entry.record == slot.record)
    && (slot.shift.Some? ==> entry.shift == Some(slot.shift.value.id))
  }

  function FindEntry(entries: seq<Entry>, records: seq<Record>, slot: Slot): (r: Option<nat>)
    ensures r.Some? ==> r.value < |entries|
  {
    if entries == [] then None
    else
      var r := FindEntry(entries[..|entries| - 1], records, slot);
      if r.Some? then r
      else if IsEntryOf(entries[|entries| - 1], records, slot) then Some(|entries| - 1)
      else None
  }

  /** The lookup returns the first entry that matches, if there is one. */
  lemma {:induction false} FindEntryFinds(entries: seq<Entry>, records: seq<Record>, slot: Slot)
    ensures var r := FindEntry(entries, records, slot);
            && (r.Some? ==>
                  && IsEntryOf(entries[r.value], records, slot)
                  && forall i | 0 <= i < r.value :: !IsEntryOf(entries[i], records, slot))
            && (r.None? ==> forall i | 0 <= i < |entries| :: !IsEntryOf(entries[i], records, slot))
  {
    if entries != [] {
      FindEntryFinds(entries[..|entries| - 1], records, slot);
    }
  }

  function UpsertEntry(entries: seq<Entry>, exceptions: seq<ExceptionRow>, records: seq<Record>, e: EmployeeId, slot: Slot): seq<Entry> {
    var data := EntryFor(records, slot, CountExceptions(exceptions, e, slot));
    var existing := FindEntry(entries, records, slot);
    if existing.Some? then entries[existing.value := data] else entries + [data]
  }

  // ---------------------------------------------------------------- one timesheet

  function ShiftSlots(i: Input, n: nat): (slots: seq<Slot>)
    requires n <= |i.shifts|
    ensures |slots| == n
  {
    seq(n, k requires 0 <= k < n => Slot(FirstLinked(i.records, i.ids, i.shifts[k].id), Some(i.shifts[k])))
  }

  function UnlinkedIds(records: seq<Record>, ids: seq<nat>): seq<nat>
  {
    if ids == [] then []
    else
      UnlinkedIds(records, ids[..|ids| - 1])
      + (if Unlinked(records, ids[|ids| - 1]) then [ids[|ids| - 1]] else [])
  }

  function RecordSlots(ids: seq<nat>): (slots: seq<Slot>)
    ensures |slots| == |ids|
  {
    seq(|ids|, k requires 0 <= k < |ids| => Slot(Some(ids[k]), None))
  }

  function Slots(i: Input): seq<Slot> {
    ShiftSlots(i, |i.shifts|) + RecordSlots(UnlinkedIds(i.records, i.ids))
  }

  datatype Progress = Progress(entries: seq<Entry>, exceptions: seq<ExceptionRow>)

  function ExceptionsAfter(exceptions: seq<ExceptionRow>, e: EmployeeId, slot: Slot): seq<ExceptionRow> {
    if slot.shift.Some? && slot.record.None? then UpsertMissed(exceptions, e, slot.shift.value.id) else exceptions
  }

  function Process(p: Progress, i: Input, slot: Slot): Progress {
    var exceptions := ExceptionsAfter(p.exceptions, i.key.employee, slot);
    Progress(UpsertEntry(p.entries, exceptions, i.records, i.key.employee, slot), exceptions)
  }

  function ProcessAll(p: Progress, i: Input, slots: seq<Slot>): Progress {
    if slots == [] then p else Process(ProcessAll(p, i, slots[..|slots| - 1]), i, slots[|slots| - 1])
  }

  function Regular(): Entry -> nat { (e: Entry) => Max(0, e.payable - e.overtime) }
  function Overtime(): Entry -> nat { (e: Entry) => e.overtime }
  function Breaks(): Entry -> nat { (e: Entry) => e.breaks }
  function Payable(): Entry -> nat { (e: Entry) => e.payable }
  function Exceptions(): Entry -> nat { (e: Entry) => e.exceptions }

  function Recalculate(entries: seq<Entry>): Totals {
    Totals(Sum(entries, Regular()), Sum(entries, Overtime()), Sum(entries, Breaks()), Sum(entries, Exceptions()))
  }

  datatype Book = Book(sheets: map<Key, Sheet>, exceptions: seq<ExceptionRow>)

  predicate CanGenerate(b: Book, key: Key) { key in b.sheets ==> !Final(b.sheets[key].status) }

  /** One employee's transaction; a finalized timesheet makes it fail and change nothing. */
  function Generate(b: Book, i: Input): Book {
    if !CanGenerate(b, i.key) then b
    else Install(b, i.key, FullPass(b, i))
  }

  function FullPass(b: Book, i: Input): Progress {
    ProcessAll(Progress(DraftOf(b.sheets, i.key).entries, b.exceptions), i, Slots(i))
  }

  function Install(b: Book, key: Key, p: Progress): Book {
    Book(b.sheets[key := Sheet(Draft, Recalculate(p.entries), p.entries)], p.exceptions)
  }

  function DraftOf(sheets: map<Key, Sheet>, key: Key): Sheet {
    if key in sheets then sheets[key].(status := Draft) else Sheet(Draft, Totals(0, 0, 0, 0), [])
  }

  class TimesheetStore {
    var sheets: map<Key, Sheet>
    var exceptions: seq<ExceptionRow>

    constructor ()
      ensures sheets == map[] && exceptions == []
    {
      sheets, exceptions := map[], [];
    }

    method UpsertException(e: EmployeeId, shift: nat)
      modifies this`exceptions
      ensures exceptions == UpsertMissed(old(exceptions), e, shift)
    {
      if !HasMissed(exceptions, e, shift) {
        exceptions := exceptions + [ExceptionRow(e, None, Some(shift), MissedClockIn, OpenException)];
      }
    }

    method UpsertTimesheetEntry(key: Key, records: seq<Record>, slot: Slot)
      requires key in sheets
      modifies this`sheets
      ensures sheets == old(sheets)[key := old(sheets)[key].(entries :=
                UpsertEntry(old(sheets)[key].entries, exceptions, records, key.employee, slot))]
    {
      var sheet := sheets[key];
      var count := CountExceptions(exceptions, key.employee, slot);
      var data := EntryFor(records, slot, count);
      var existing := FindEntry(sheet.entries, records, slot);
      if existing.Some? {
        sheets := sheets[key := sheet.(entries := sheet.entries[existing.value := data])];
      } else {
        sheets := sheets[key := sheet.(entries := sheet.entries + [data])];
      }
    }

    method RecalculateTimesheet(key: Key)
      requires key in sheets
      modifies this`sheets
      ensures sheets == old(sheets)[key := old(sheets)[key].(totals := Recalculate(old(sheets)[key].entries))]
    {
      var entries := sheets[key].entries;
      var regular, overtime, breaks, count := 0, 0, 0, 0;
      for n := 0 to |entries|
        invariant regular == Sum(entries[..n], Regular()) && overtime == Sum(entries[..n], Overtime())
        invariant breaks == Sum(entries[..n], Breaks()) && count == Sum(entries[..n], Exceptions())
      {
        assert entries[..n + 1][..n] == entries[..n];
        regular := regular + Max(0, entries[n].payable - entries[n].overtime);
        overtime := overtime + entries[n].overtime;
        breaks := breaks + entries[n].breaks;
        count := count + entries[n].exceptions;
      }
      assert entries[..|entries|] == entries;
      sheets := sheets[key := sheets[key].(totals := Totals(regular, overtime, breaks, count))];
    }

    function Tables(): Book
      reads this
    {
      Book(sheets, exceptions)
    }

    function ProgressOf(key: Key): Progress
      requires key in sheets
      reads this
    {
      Progress(sheets[key].entries, exceptions)
    }

    /** Only the entries of one timesheet differ from those of `base`. */
    ghost predicate OnlyEntriesOf(key: Key, base: map<Key, Sheet>)
      reads this
    {
      && key in base && sheets.Keys == base.Keys
      && (forall k | k in base && k != key :: sheets[k] == base[k])
      && sheets[key].status == base[key].status && sheets[key].totals == base[key].totals
    }

    method WriteEntry(i: Input, slot: Slot)
      requires i.key in sheets
      modifies this
      ensures OnlyEntriesOf(i.key, old(sheets))
      ensures ProgressOf(i.key) == Process(old(ProgressOf(i.key)), i, slot)
    {
      if slot.shift.Some? && slot.record.None? {
        UpsertException(i.key.employee, slot.shift.value.id);
      }
      UpsertTimesheetEntry(i.key, i.records, slot);
    }

    /** One loop of the transaction: the missed clock-ins and entries of the given slots, in order. */
    method WriteEntries(i: Input, slots: seq<Slot>)
      requires i.key in sheets
      modifies this
      ensures OnlyEntriesOf(i.key, old(sheets))
      ensures ProgressOf(i.key) == ProcessAll(old(ProgressOf(i.key)), i, slots)
    {
      ghost var start := ProgressOf(i.key);
      for n := 0 to |slots|
        invariant OnlyEntriesOf(i.key, old(sheets))
        invariant ProgressOf(i.key) == ProcessAll(start, i, slots[..n])
      {
        ProcessPrefix(start, i, slots, n);
        WriteEntry(i, slots[n]);
      }
      assert slots[..|slots|] == slots;
    }

    method WriteAllEntries(i: Input)
      requires i.key in sheets
      modifies this
      ensures OnlyEntriesOf(i.key, old(sheets))
      ensures ProgressOf(i.key) == ProcessAll(old(ProgressOf(i.key)), i, Slots(i))
    {
      ghost var start := ProgressOf(i.key);
      WriteEntries(i, ShiftSlots(i, |i.shifts|));
      WriteEntries(i, RecordSlots(UnlinkedIds(i.records, i.ids)));
      ProcessInTwoParts(start, i, ShiftSlots(i, |i.shifts|), RecordSlots(UnlinkedIds(i.records, i.ids)));
    }

    method UpsertDraft(key: Key)
      modifies this`sheets
      ensures sheets == old(sheets)[key := DraftOf(old(sheets), key)]
    {
      if key in sheets {
        sheets := sheets[key := sheets[key].(status := Draft)];
      } else {
        sheets := sheets[key := Sheet(Draft, Totals(0, 0, 0, 0), [])];
      }
    }

    method GenerateTimesheet(i: Input) returns (ok: bool)
      modifies this
      ensures ok == CanGenerate(old(Tables()), i.key)
      ensures Tables() == Generate(old(Tables()), i)
    {
      if i.key in sheets && Final(sheets[i.key].status) {
        return false;
      }
      ghost var before := Tables();
      UpsertDraft(i.key);
      WriteAllEntries(i);
      ghost var p := ProgressOf(i.key);
      assert p == FullPass(before, i);
      RecalculateTimesheet(i.key);
      InstallIs(before, i.key, p, sheets);
      return true;
    }
  }

  lemma InstallIs(b: Book, key: Key, p: Progress, sheets: map<Key, Sheet>)
    requires sheets.Keys == b.sheets.Keys + {key} && forall k | k in b.sheets && k != key :: sheets[k] == b.sheets[k]
    requires sheets[key] == Sheet(Draft, Recalculate(p.entries), p.entries)
    ensures Book(sheets, p.exceptions) == Install(b, key, p)
  {
    assert sheets == b.sheets[key := sheets[key]];
  }

  lemma ProcessPrefix(p: Progress, i: Input, slots: seq<Slot>, n: nat)
    requires n < |slots|
    ensures ProcessAll(p, i, slots[..n + 1]) == Process(ProcessAll(p, i, slots[..n]), i, slots[n])
  {
    assert slots[..n + 1][..n] == slots[..n];
  }

  lemma {:induction false} ProcessInTwoParts(p: Progress, i: Input, a: seq<Slot>, b: seq<Slot>)
    ensures ProcessAll(p, i, a + b) == ProcessAll(ProcessAll(p, i, a), i, b)
    decreases |b|
  {
    if b == [] {
      assert a + b == a;
    } else {
      assert (a + b)[..|a + b| - 1] == a + b[..|b| - 1];
      ProcessInTwoParts(p, i, a, b[..|b| - 1]);
    }
  }

  // ---------------------------------------------------------------- slots do not get in each other's way

  ghost predicate SlotOk(i: Input, slot: Slot) {
    && (slot.record.Some? ==> slot.record.value in i.ids)
    && (slot.shift.Some? && slot.record.Some? ==> LinkedTo(i.records, slot.record.value, slot.shift.value.id))
    && (slot.shift.None? ==> slot.record.Some? && Unlinked(i.records, slot.record.value))
  }

  /** Different slots are made for different shifts or different unlinked records. */
  ghost predicate Separate(a: Slot, b: Slot) {
    && (a.shift.Some? && b.shift.Some? ==> a.shift.value.id != b.shift.value.id)
    && (a.shift.None? && b.shift.None? ==> a.record != b.record)
  }

  ghost predicate SlotsOk(i: Input, slots: seq<Slot>) {
    && (forall k | 0 <= k < |slots| :: SlotOk(i, slots[k]))
    && (forall j, k | 0 <= j < k < |slots| :: Separate(slots[j], slots[k]))
  }

  lemma {:induction false} UnlinkedDistinct(records: seq<Record>, ids: seq<nat>)
    requires Distinct(ids)
    ensures Distinct(UnlinkedIds(records, ids))
    ensures forall id | id in UnlinkedIds(records, ids) :: id in ids && Unlinked(records, id)
    decreases |ids|
  {
    if ids != [] {
      var n := |ids| - 1;
      UnlinkedDistinct(records, ids[..n]);
      assert ids[n] !in ids[..n];
      assert ids[n] !in UnlinkedIds(records, ids[..n]);
    }
  }

  lemma SlotsAreOk(i: Input)
    requires ValidInput(i)
    ensures SlotsOk(i, Slots(i))
  {
    UnlinkedDistinct(i.records, i.ids);
    var a, b := ShiftSlots(i, |i.shifts|), RecordSlots(UnlinkedIds(i.records, i.ids));
    forall k | 0 <= k < |a|
      ensures SlotOk(i, a[k])
    {
      FirstLinkedFinds(i.records, i.ids, i.shifts[k].id);
    }
    forall j, k | 0 <= j < k < |a + b|
      ensures Separate((a + b)[j], (a + b)[k])
    {
      if j >= |a| {
        assert (a + b)[j] == b[j - |a|] && (a + b)[k] == b[k - |a|];
      }
    }
  }

  /** The lookup recognises exactly the entry that was made for the slot. */
  lemma LookupFindsOwnEntry(i: Input, a: Slot, b: Slot, count: nat)
    requires ValidInput(i) && SlotOk(i, a) && SlotOk(i, b)
    ensures IsEntryOf(EntryFor(i.records, a, count), i.records, a)
    ensures Separate(a, b) ==> !IsEntryOf(EntryFor(i.records, a, count), i.records, b)
  {}

  lemma CountUnaffected(exceptions: seq<ExceptionRow>, i: Input, slot: Slot, other: Slot)
    requires SlotOk(i, slot) && SlotOk(i, other) && Separate(slot, other)
    ensures CountExceptions(ExceptionsAfter(exceptions, i.key.employee, other), i.key.employee, slot)
         == CountExceptions(exceptions, i.key.employee, slot)
  {
    var after := ExceptionsAfter(exceptions, i.key.employee, other);
    if after != exceptions {
      assert after[..|exceptions|] == exceptions;
    }
  }

  predicate MissedRecorded(exceptions: seq<ExceptionRow>, e: EmployeeId, slot: Slot) {
    slot.shift.Some? && slot.record.None? ==> HasMissed(exceptions, e, slot.shift.value.id)
  }

  /** Processing a slot records its own missed clock-in and keeps all others. */
  lemma MissedIsRecorded(exceptions: seq<ExceptionRow>, e: EmployeeId, slot: Slot, other: Slot)
    ensures MissedRecorded(ExceptionsAfter(exceptions, e, slot), e, slot)
    ensures MissedRecorded(exceptions, e, other) ==> MissedRecorded(ExceptionsAfter(exceptions, e, slot), e, other)
  {
    var after := ExceptionsAfter(exceptions, e, slot);
    if after != exceptions {
      assert after[..|after| - 1] == exceptions;
    }
  }

  lemma LastSlotExceptions(p: Progress, i: Input, slots: seq<Slot>, n: nat)
    requires |slots| == n + 1
    ensures ProcessAll(p, i, slots).exceptions
         == ExceptionsAfter(ProcessAll(p, i, slots[..n]).exceptions, i.key.employee, slots[n])
  {}

  // ---------------------------------------------------------------- one generation

  /** The first entry that matches the slot is the slot's own, with the current number of exceptions. */
  predicate UpToDate(p: Progress, i: Input, slot: Slot) {
    && MissedRecorded(p.exceptions, i.key.employee, slot)
    && FindEntry(p.entries, i.records, slot).Some?
    && p.entries[FindEntry(p.entries, i.records, slot).value]
       == EntryFor(i.records, slot, CountExceptions(p.exceptions, i.key.employee, slot))
  }

  lemma FirstMatchIs(entries: seq<Entry>, records: seq<Record>, slot: Slot, k: nat)
    requires k < |entries| && IsEntryOf(entries[k], records, slot)
    requires forall j | 0 <= j < k :: !IsEntryOf(entries[j], records, slot)
    ensures FindEntry(entries, records, slot) == Some(k)
  {
    FindEntryFinds(entries, records, slot);
  }

  lemma UpToDateIsFixed(p: Progress, i: Input, slot: Slot)
    requires UpToDate(p, i, slot)
    ensures Process(p, i, slot) == p
  {
    var k := FindEntry(p.entries, i.records, slot).value;
    assert p.entries[k := p.entries[k]] == p.entries;
    assert ExceptionsAfter(p.exceptions, i.key.employee, slot) == p.exceptions;
  }

  /** The entry a slot writes is the first to match it from then on. */
  lemma WrittenIsFirstMatch(p: Progress, i: Input, slot: Slot)
    requires ValidInput(i) && SlotOk(i, slot)
    ensures FindEntry(Process(p, i, slot).entries, i.records, slot)
         == Some(FindEntry(p.entries, i.records, slot).GetOr(|p.entries|))
    ensures UpToDate(Process(p, i, slot), i, slot)
  {
    var q := Process(p, i, slot);
    MissedIsRecorded(p.exceptions, i.key.employee, slot, slot);
    FindEntryFinds(p.entries, i.records, slot);
    LookupFindsOwnEntry(i, slot, slot, CountExceptions(q.exceptions, i.key.employee, slot));
    FirstMatchIs(q.entries, i.records, slot, FindEntry(p.entries, i.records, slot).GetOr(|p.entries|));
  }

  /** Writing an entry for `other` that `slot` does not match leaves the first match of `slot` alone. */
  lemma WriteKeepsFirstMatch(entries: seq<Entry>, records: seq<Record>, slot: Slot, other: Slot, data: Entry, k: nat)
    requires FindEntry(entries, records, slot) == Some(k) && k < |entries|
    requires !IsEntryOf(entries[k], records, other) && !IsEntryOf(data, records, slot)
    ensures var at := FindEntry(entries, records, other);
            var after := if at.Some? then entries[at.value := data] else entries + [data];
            at != Some(k) && FindEntry(after, records, slot) == Some(k) && after[k] == entries[k]
  {
    var at := FindEntry(entries, records, other);
    var after := if at.Some? then entries[at.value := data] else entries + [data];
    FindEntryFinds(entries, records, slot);
    FindEntryFinds(entries, records, other);
    FirstMatchIs(after, records, slot, k);
  }

  /** A separate slot rewrites another entry. */
  lemma OthersStayUpToDate(p: Progress, i: Input, slot: Slot, other: Slot)
    requires ValidInput(i) && SlotOk(i, slot) && SlotOk(i, other) && Separate(slot, other) && UpToDate(p, i, slot)
    ensures UpToDate(Process(p, i, other), i, slot)
    ensures FindEntry(Process(p, i, other).entries, i.records, slot) == FindEntry(p.entries, i.records, slot)
    ensures FindEntry(p.entries, i.records, other) != FindEntry(p.entries, i.records, slot)
  {
    var exceptions := ExceptionsAfter(p.exceptions, i.key.employee, other);
    var count := CountExceptions(exceptions, i.key.employee, other);
    MissedIsRecorded(p.exceptions, i.key.employee, other, slot);
    CountUnaffected(p.exceptions, i, slot, other);
    LookupFindsOwnEntry(i, slot, other, CountExceptions(p.exceptions, i.key.employee, slot));
    LookupFindsOwnEntry(i, other, slot, count);
    WriteKeepsFirstMatch(p.entries, i.records, slot, other, EntryFor(i.records, other, count), FindEntry(p.entries, i.records, slot).value);
  }

  /** Entry `k` is the first match of one of the first `n` slots. */
  predicate Owned(entries: seq<Entry>, records: seq<Record>, slots: seq<Slot>, n: nat, k: nat)
    requires n <= |slots|
  {
    exists j | 0 <= j < n :: FindEntry(entries, records, slots[j]) == Some(k)
  }

  /** Entry `k` was there before and is untouched. */
  predicate Kept(before: seq<Entry>, after: seq<Entry>, k: nat) {
    k < |before| && k < |after| && after[k] == before[k]
  }

  ghost predicate AllUpToDate(p: Progress, i: Input, slots: seq<Slot>, n: nat)
    requires n <= |slots|
  {
    forall j | 0 <= j < n :: UpToDate(p, i, slots[j])
  }

  lemma StepUpToDate(p: Progress, i: Input, slots: seq<Slot>, n: nat)
    requires ValidInput(i) && SlotsOk(i, slots) && n < |slots| && AllUpToDate(p, i, slots, n)
    ensures AllUpToDate(Process(p, i, slots[n]), i, slots, n + 1)
  {
    WrittenIsFirstMatch(p, i, slots[n]);
    forall j | 0 <= j < n
      ensures UpToDate(Process(p, i, slots[n]), i, slots[j])
    {
      OthersStayUpToDate(p, i, slots[j], slots[n]);
    }
  }

  // ---------------------------------------------------------------- which old entries a generation takes over

  /** The first entry that matches the slot and is not taken. */
  function FirstFree(entries: seq<Entry>, records: seq<Record>, slot: Slot, taken: set<nat>): Option<nat> {
    if entries == [] then None
    else
      var r := FirstFree(entries[..|entries| - 1], records, slot, taken);
      if r.Some? then r
      else if |entries| - 1 !in taken && IsEntryOf(entries[|entries| - 1], records, slot) then Some(|entries| - 1)
      else None
  }

  lemma {:induction false} FirstFreeFinds(entries: seq<Entry>, records: seq<Record>, slot: Slot, taken: set<nat>)
    ensures var r := FirstFree(entries, records, slot, taken);
            && (r.Some? ==>
                  && r.value < |entries| && r.value !in taken && IsEntryOf(entries[r.value], records, slot)
                  && forall k: nat | k < r.value :: k in taken || !IsEntryOf(entries[k], records, slot))
            && (r.None? ==> forall k: nat | k < |entries| :: k in taken || !IsEntryOf(entries[k], records, slot))
  {
    if entries != [] {
      FirstFreeFinds(entries[..|entries| - 1], records, slot, taken);
    }
  }

  /** The old entries that the first `n` slots take over: each its first match that no earlier one takes. */
  function Taken(before: seq<Entry>, records: seq<Record>, slots: seq<Slot>, n: nat): set<nat>
    requires n <= |slots|
  {
    if n == 0 then {}
    else
      var taken := Taken(before, records, slots, n - 1);
      var r := FirstFree(before, records, slots[n - 1], taken);
      if r.Some? then taken + {r.value} else taken
  }

  /** The entries owned by the first `n` slots are the old ones they take over and all new ones; the other
      old ones are untouched. */
  ghost predicate TakesOver(before: seq<Entry>, after: seq<Entry>, records: seq<Record>, slots: seq<Slot>, n: nat)
    requires n <= |slots|
  {
    && |before| <= |after|
    && (forall k: nat | k < |after| ::
          Owned(after, records, slots, n, k) <==> k >= |before| || k in Taken(before, records, slots, n))
    && (forall k: nat | k < |before| && k !in Taken(before, records, slots, n) :: after[k] == before[k])
  }

  lemma OwnedByOthersDontMatch(p: Progress, i: Input, slots: seq<Slot>, n: nat, k: nat)
    requires ValidInput(i) && SlotsOk(i, slots) && n < |slots| && AllUpToDate(p, i, slots, n)
    requires k < |p.entries| && Owned(p.entries, i.records, slots, n, k)
    ensures !IsEntryOf(p.entries[k], i.records, slots[n])
  {
    var j :| 0 <= j < n && FindEntry(p.entries, i.records, slots[j]) == Some(k);
    assert UpToDate(p, i, slots[j]);
    LookupFindsOwnEntry(i, slots[j], slots[n], CountExceptions(p.exceptions, i.key.employee, slots[j]));
  }

  /** The lookup finds what the old entries alone determine. */
  lemma LookupFindsFirstFree(before: seq<Entry>, p: Progress, i: Input, slots: seq<Slot>, n: nat)
    requires ValidInput(i) && SlotsOk(i, slots) && n < |slots| && AllUpToDate(p, i, slots, n)
    requires TakesOver(before, p.entries, i.records, slots, n)
    ensures FindEntry(p.entries, i.records, slots[n])
         == FirstFree(before, i.records, slots[n], Taken(before, i.records, slots, n))
  {
    var taken := Taken(before, i.records, slots, n);
    var free := FirstFree(before, i.records, slots[n], taken);
    FirstFreeFinds(before, i.records, slots[n], taken);
    forall k: nat | k < |p.entries| && (free.Some? ==> k < free.value)
      ensures !IsEntryOf(p.entries[k], i.records, slots[n])
    {
      if k >= |before| || k in taken {
        OwnedByOthersDontMatch(p, i, slots, n, k);
      }
    }
    FindEntryFinds(p.entries, i.records, slots[n]);
    if free.Some? {
      FirstMatchIs(p.entries, i.records, slots[n], free.value);
    }
  }

  /** A slot comes to own the entry it writes, and nobody loses one. */
  lemma OwnedAfterStep(p: Progress, i: Input, slots: seq<Slot>, n: nat, k: nat)
    requires ValidInput(i) && SlotsOk(i, slots) && n < |slots| && AllUpToDate(p, i, slots, n)
    ensures Owned(Process(p, i, slots[n]).entries, i.records, slots, n + 1, k)
       <==> Owned(p.entries, i.records, slots, n, k) || k == FindEntry(p.entries, i.records, slots[n]).GetOr(|p.entries|)
  {
    var after := Process(p, i, slots[n]).entries;
    WrittenIsFirstMatch(p, i, slots[n]);
    forall j | 0 <= j < n
      ensures FindEntry(after, i.records, slots[j]) == FindEntry(p.entries, i.records, slots[j])
    {
      OthersStayUpToDate(p, i, slots[j], slots[n]);
    }
    if Owned(p.entries, i.records, slots, n, k) {
      var j :| 0 <= j < n && FindEntry(p.entries, i.records, slots[j]) == Some(k);
      assert FindEntry(after, i.records, slots[j]) == Some(k);
    } else if k == FindEntry(p.entries, i.records, slots[n]).GetOr(|p.entries|) {
      assert FindEntry(after, i.records, slots[n]) == Some(k);
    }
  }

  lemma TakenGrows(before: seq<Entry>, records: seq<Record>, slots: seq<Slot>, n: nat, k: nat)
    requires n < |slots|
    ensures k in Taken(before, records, slots, n + 1)
       <==> k in Taken(before, records, slots, n) || FirstFree(before, records, slots[n], Taken(before, records, slots, n)) == Some(k)
  {}

  lemma StepOwns(before: seq<Entry>, p: Progress, i: Input, slots: seq<Slot>, n: nat, k: nat)
    requires ValidInput(i) && SlotsOk(i, slots) && n < |slots| && AllUpToDate(p, i, slots, n)
    requires TakesOver(before, p.entries, i.records, slots, n) && k < |Process(p, i, slots[n]).entries|
    ensures Owned(Process(p, i, slots[n]).entries, i.records, slots, n + 1, k)
       <==> k >= |before| || k in Taken(before, i.records, slots, n + 1)
  {
    LookupFindsFirstFree(before, p, i, slots, n);
    FindEntryFinds(p.entries, i.records, slots[n]);
    OwnedAfterStep(p, i, slots, n, k);
    TakenGrows(before, i.records, slots, n, k);
  }

  lemma StepLeaves(before: seq<Entry>, p: Progress, i: Input, slots: seq<Slot>, n: nat, k: nat)
    requires ValidInput(i) && SlotsOk(i, slots) && n < |slots| && AllUpToDate(p, i, slots, n)
    requires TakesOver(before, p.entries, i.records, slots, n)
    requires k < |before| && k !in Taken(before, i.records, slots, n + 1)
    ensures Kept(before, Process(p, i, slots[n]).entries, k)
  {
    LookupFindsFirstFree(before, p, i, slots, n);
    TakenGrows(before, i.records, slots, n, k);
  }

  lemma StepTakesOver(before: seq<Entry>, p: Progress, i: Input, slots: seq<Slot>, n: nat)
    requires ValidInput(i) && SlotsOk(i, slots) && n < |slots| && AllUpToDate(p, i, slots, n)
    requires TakesOver(before, p.entries, i.records, slots, n)
    ensures TakesOver(before, Process(p, i, slots[n]).entries, i.records, slots, n + 1)
  {
    var after, next: nat := Process(p, i, slots[n]).entries, n + 1;
    forall k: nat | k < |after|
      ensures Owned(after, i.records, slots, next, k) <==> k >= |before| || k in Taken(before, i.records, slots, next)
    {
      StepOwns(before, p, i, slots, n, k);
    }
    forall k: nat | k < |before| && k !in Taken(before, i.records, slots, next)
      ensures after[k] == before[k]
    {
      StepLeaves(before, p, i, slots, n, k);
    }
  }

  /** After `n` slots those are up to date, and have taken over what they are to take. */
  ghost predicate Passed(start: seq<Entry>, p: Progress, i: Input, slots: seq<Slot>, n: nat)
    requires n <= |slots|
  {
    AllUpToDate(p, i, slots, n) && TakesOver(start, p.entries, i.records, slots, n)
  }

  lemma NothingPassed(p: Progress, i: Input, slots: seq<Slot>)
    ensures Passed(p.entries, p, i, slots, 0)
  {
    assert forall k: nat :: !Owned(p.entries, i.records, slots, 0, k);
  }

  lemma OneMorePassed(start: seq<Entry>, p: Progress, i: Input, slots: seq<Slot>, n: nat)
    requires ValidInput(i) && SlotsOk(i, slots) && n < |slots| && Passed(start, p, i, slots, n)
    ensures Passed(start, Process(p, i, slots[n]), i, slots, n + 1)
  {
    StepUpToDate(p, i, slots, n);
    StepTakesOver(start, p, i, slots, n);
  }

  lemma NextPassed(p: Progress, i: Input, slots: seq<Slot>, n: nat)
    requires ValidInput(i) && SlotsOk(i, slots) && n < |slots| && Passed(p.entries, ProcessAll(p, i, slots[..n]), i, slots, n)
    ensures Passed(p.entries, ProcessAll(p, i, slots[..n + 1]), i, slots, n + 1)
  {
    ProcessPrefix(p, i, slots, n);
    OneMorePassed(p.entries, ProcessAll(p, i, slots[..n]), i, slots, n);
  }

  lemma {:induction false} Pass(p: Progress, i: Input, slots: seq<Slot>, n: nat)
    requires ValidInput(i) && SlotsOk(i, slots) && n <= |slots|
    ensures Passed(p.entries, ProcessAll(p, i, slots[..n]), i, slots, n)
    decreases n
  {
    if n == 0 {
      assert slots[..0] == [];
      NothingPassed(p, i, slots);
    } else {
      Pass(p, i, slots, n - 1);
      NextPassed(p, i, slots, n - 1);
    }
  }

  // ---------------------------------------------------------------- settled timesheets

  lemma {:induction false} AllFixed(p: Progress, i: Input, slots: seq<Slot>)
    requires AllUpToDate(p, i, slots, |slots|)
    ensures ProcessAll(p, i, slots) == p
    decreases |slots|
  {
    if slots != [] {
      var n := |slots| - 1;
      AllFixed(p, i, slots[..n]);
      UpToDateIsFixed(p, i, slots[n]);
    }
  }

  /** The timesheet is as a generation leaves it. */
  ghost predicate Settled(b: Book, i: Input) {
    && i.key in b.sheets
    && b.sheets[i.key] == Sheet(Draft, Recalculate(b.sheets[i.key].entries), b.sheets[i.key].entries)
    && AllUpToDate(Progress(b.sheets[i.key].entries, b.exceptions), i, Slots(i), |Slots(i)|)
  }

  /** No slot finds the entry first, so no generation from the same input rewrites it. */
  predicate Stale(entries: seq<Entry>, i: Input, k: nat) {
    k < |entries| && !Owned(entries, i.records, Slots(i), |Slots(i)|, k)
  }

  /** An old entry that no slot takes over: a condition on the timesheet before the generation. */
  predicate LeftOver(before: seq<Entry>, i: Input, k: nat) {
    k < |before| && k !in Taken(before, i.records, Slots(i), |Slots(i)|)
  }

  /** After a generation every slot has its own up-to-date entry. */
  lemma GenerateSettles(b: Book, i: Input)
    requires ValidInput(i) && CanGenerate(b, i.key)
    ensures Settled(Generate(b, i), i)
    ensures TakesOver(DraftOf(b.sheets, i.key).entries, Generate(b, i).sheets[i.key].entries, i.records, Slots(i), |Slots(i)|)
  {
    SlotsAreOk(i);
    Pass(Progress(DraftOf(b.sheets, i.key).entries, b.exceptions), i, Slots(i), |Slots(i)|);
    assert Slots(i)[..|Slots(i)|] == Slots(i);
  }

  /** An entry of the generated timesheet belongs to no slot if and only if it is an old one that was left
      over, and then it is as it was. */
  lemma LeftOverExactly(b: Book, i: Input, k: nat)
    requires ValidInput(i) && CanGenerate(b, i.key)
    ensures var before, after := DraftOf(b.sheets, i.key).entries, Generate(b, i).sheets[i.key].entries;
            && (Stale(after, i, k) <==> LeftOver(before, i, k))
            && (LeftOver(before, i, k) ==> Kept(before, after, k))
  {
    GenerateSettles(b, i);
  }

  lemma SettledPass(b: Book, i: Input)
    requires Settled(b, i)
    ensures FullPass(b, i) == Progress(b.sheets[i.key].entries, b.exceptions)
  {
    AllFixed(Progress(b.sheets[i.key].entries, b.exceptions), i, Slots(i));
  }

  lemma InstallSame(b: Book, key: Key, p: Progress)
    requires key in b.sheets && b.sheets[key] == Sheet(Draft, Recalculate(p.entries), p.entries) && p.exceptions == b.exceptions
    ensures Install(b, key, p) == b
  {
    assert b.sheets[key := b.sheets[key]] == b.sheets;
  }

  lemma SettledIsFixed(b: Book, i: Input)
    requires Settled(b, i)
    ensures Generate(b, i) == b
  {
    SettledPass(b, i);
    InstallSame(b, i.key, FullPass(b, i));
  }

  // ---------------------------------------------------------------- other employees' timesheets

  lemma ForeignSlot(exceptions: seq<ExceptionRow>, e: EmployeeId, slot: Slot, e': EmployeeId, slot': Slot)
    requires e != e'
    ensures CountExceptions(ExceptionsAfter(exceptions, e', slot'), e, slot) == CountExceptions(exceptions, e, slot)
    ensures MissedRecorded(exceptions, e, slot) ==> MissedRecorded(ExceptionsAfter(exceptions, e', slot'), e, slot)
  {
    var after := ExceptionsAfter(exceptions, e', slot');
    if after != exceptions {
      assert after[..|after| - 1] == exceptions;
    }
  }

  lemma {:induction false} ForeignPass(p: Progress, i: Input, slots: seq<Slot>, e: EmployeeId, slot: Slot)
    requires e != i.key.employee
    ensures var q := ProcessAll(p, i, slots);
            && CountExceptions(q.exceptions, e, slot) == CountExceptions(p.exceptions, e, slot)
            && (MissedRecorded(p.exceptions, e, slot) ==> MissedRecorded(q.exceptions, e, slot))
    decreases |slots|
  {
    if slots != [] {
      var n := |slots| - 1;
      ForeignPass(p, i, slots[..n], e, slot);
      LastSlotExceptions(p, i, slots, n);
      ForeignSlot(ProcessAll(p, i, slots[..n]).exceptions, e, slot, i.key.employee, slots[n]);
    }
  }

  /** Generating somebody else's timesheet leaves a settled one settled, and as it is. */
  lemma SettledStays(b: Book, i: Input, other: Input)
    requires Settled(b, i) && other.key.employee != i.key.employee
    ensures Settled(Generate(b, other), i) && Generate(b, other).sheets[i.key] == b.sheets[i.key]
  {
    if CanGenerate(b, other.key) {
      forall j | 0 <= j < |Slots(i)|
        ensures UpToDate(Progress(b.sheets[i.key].entries, Generate(b, other).exceptions), i, Slots(i)[j])
      {
        ForeignPass(Progress(DraftOf(b.sheets, other.key).entries, b.exceptions), other, Slots(other), i.key.employee, Slots(i)[j]);
      }
    }
  }

  // ---------------------------------------------------------------- generating again

  /** Generating a second time from the same records and shifts changes neither the timesheet nor the
      exceptions, whatever the timesheet held before the first time. */
  lemma RegenerationIsIdempotent(b: Book, i: Input)
    requires ValidInput(i)
    ensures Generate(Generate(b, i), i) == Generate(b, i)
  {
    if CanGenerate(b, i.key) {
      GenerateSettles(b, i);
      SettledIsFixed(Generate(b, i), i);
    }
  }

  lemma {:induction false} UnmatchedStays(p: Progress, i: Input, slots: seq<Slot>, k: nat)
    requires k < |p.entries| && forall j | 0 <= j < |slots| :: !IsEntryOf(p.entries[k], i.records, slots[j])
    ensures Kept(p.entries, ProcessAll(p, i, slots).entries, k)
    decreases |slots|
  {
    if slots != [] {
      var n := |slots| - 1;
      UnmatchedStays(p, i, slots[..n], k);
      FindEntryFinds(ProcessAll(p, i, slots[..n]).entries, i.records, slots[n]);
    }
  }

  /** An entry without a record whose shift now has one matches no slot. */
  lemma LateRecordLosesEntry(i: Input, n: nat, entry: Entry, j: nat)
    requires ValidInput(i) && n < |i.shifts| && FirstLinked(i.records, i.ids, i.shifts[n].id).Some? && j < |Slots(i)|
    requires entry.shift == Some(i.shifts[n].id) && entry.record.None?
    ensures !IsEntryOf(entry, i.records, Slots(i)[j])
  {
    SlotsAreOk(i);
    var slots := Slots(i);
    assert slots[n] == Slot(FirstLinked(i.records, i.ids, i.shifts[n].id), Some(i.shifts[n]));
    assert SlotOk(i, slots[j]) && (j < n ==> Separate(slots[j], slots[n])) && (n < j ==> Separate(slots[n], slots[j]));
  }

  /** A shift entered as missed whose record arrives later: the next generation leaves the old entry as it
      is and gives the shift another one, with the record. */
  lemma LateRecordAddsSecondEntry(b: Book, i: Input, n: nat, k: nat) returns (m: nat)
    requires ValidInput(i) && CanGenerate(b, i.key) && i.key in b.sheets
    requires n < |i.shifts| && FirstLinked(i.records, i.ids, i.shifts[n].id).Some?
    requires k < |b.sheets[i.key].entries|
    requires b.sheets[i.key].entries[k].shift == Some(i.shifts[n].id) && b.sheets[i.key].entries[k].record.None?
    ensures var before, after := b.sheets[i.key].entries, Generate(b, i).sheets[i.key].entries;
            && Kept(before, after, k) && Stale(after, i, k)
            && m < |after| && m != k && !Stale(after, i, m)
            && after[m].shift == Some(i.shifts[n].id) && after[m].record == FirstLinked(i.records, i.ids, i.shifts[n].id)
  {
    var before, after := b.sheets[i.key].entries, Generate(b, i).sheets[i.key].entries;
    var slots := Slots(i);
    GenerateSettles(b, i);
    forall j | 0 <= j < |slots|
      ensures !IsEntryOf(before[k], i.records, slots[j])
    {
      LateRecordLosesEntry(i, n, before[k], j);
    }
    UnmatchedStays(Progress(before, b.exceptions), i, slots, k);
    forall j | 0 <= j < |slots|
      ensures FindEntry(after, i.records, slots[j]) != Some(k)
    {
      FindEntryFinds(after, i.records, slots[j]);
    }
    assert slots[n] == Slot(FirstLinked(i.records, i.ids, i.shifts[n].id), Some(i.shifts[n]));
    assert UpToDate(Progress(after, Generate(b, i).exceptions), i, slots[n]);
    m := FindEntry(after, i.records, slots[n]).value;
  }

  // ---------------------------------------------------------------- where the minutes go

  /** The minute columns that go from records into entries. */
  datatype Measure = ActualTime | PayableTime | OvertimeTime

  function Measured(m: Minutes, w: Measure): nat {
    match w
    case ActualTime => m.actual
    case PayableTime => m.payable
    case OvertimeTime => m.overtime
  }

  function EntryMeasure(e: Entry, w: Measure): nat {
    match w
    case ActualTime => e.actual
    case PayableTime => e.payable
    case OvertimeTime => e.overtime
  }

  function EntryMinutes(w: Measure): Entry -> nat { (e: Entry) => EntryMeasure(e, w) }

  function MinutesAt(records: seq<Record>, id: nat, w: Measure): nat {
    if id < |records| then Measured(records[id].minutes, w) else 0
  }

  /** A record that no entry stands for: linked, but not the first record of one of the live shifts. */
  predicate Dropped(i: Input, id: nat) {
    id < |i.records| && i.records[id].shift.Some? && !Chosen(i, |i.shifts|, id)
  }

  predicate Chosen(i: Input, n: nat, id: nat)
    requires n <= |i.shifts|
  {
    exists k | 0 <= k < n :: FirstLinked(i.records, i.ids, i.shifts[k].id) == Some(id)
  }

  function RecordMinutes(i: Input, w: Measure): nat -> nat { (id: nat) => MinutesAt(i.records, id, w) }

  function DroppedMinutes(i: Input, w: Measure): nat -> nat {
    (id: nat) => if Dropped(i, id) then MinutesAt(i.records, id, w) else 0
  }

  function UnlinkedMinutes(i: Input, w: Measure): nat -> nat {
    (id: nat) => if Unlinked(i.records, id) then MinutesAt(i.records, id, w) else 0
  }

  function ChosenMinutes(i: Input, n: nat, w: Measure): nat -> nat
    requires n <= |i.shifts|
  {
    (id: nat) => if Chosen(i, n, id) then MinutesAt(i.records, id, w) else 0
  }

  function LinkedMinutes(i: Input, w: Measure): nat -> nat {
    (id: nat) => if Chosen(i, |i.shifts|, id) || Dropped(i, id) then MinutesAt(i.records, id, w) else 0
  }

  function SlotMinutes(i: Input, w: Measure): Slot -> nat {
    (s: Slot) => if s.record.Some? then MinutesAt(i.records, s.record.value, w) else 0
  }

  lemma {:induction false} ShiftSlotsReport(i: Input, n: nat, w: Measure)
    requires ValidInput(i) && n <= |i.shifts|
    ensures Sum(ShiftSlots(i, n), SlotMinutes(i, w)) == Sum(i.ids, ChosenMinutes(i, n, w))
    decreases n
  {
    if n == 0 {
      SumZero(i.ids, ChosenMinutes(i, 0, w));
    } else {
      ShiftSlotsReport(i, n - 1, w);
      var slot := ShiftSlots(i, n)[n - 1];
      assert ShiftSlots(i, n) == ShiftSlots(i, n - 1) + [slot];
      SumAppend(ShiftSlots(i, n - 1), slot, SlotMinutes(i, w));
      ChosenGrows(i, n);
      if slot.record.None? {
        SumSame(i.ids, ChosenMinutes(i, n - 1, w), ChosenMinutes(i, n, w));
      } else {
        FirstLinkedFinds(i.records, i.ids, i.shifts[n - 1].id);
        var k :| 0 <= k < |i.ids| && i.ids[k] == slot.record.value;
        assert !Chosen(i, n - 1, i.ids[k]);
        SumDiffersAt(i.ids, k, ChosenMinutes(i, n - 1, w), ChosenMinutes(i, n, w));
      }
    }
  }

  /** Shift `n - 1` chooses its own first record, which no earlier shift has chosen. */
  lemma ChosenGrows(i: Input, n: nat)
    requires ValidInput(i) && 0 < n <= |i.shifts|
    ensures var own := FirstLinked(i.records, i.ids, i.shifts[n - 1].id);
            && (forall id: nat :: Chosen(i, n, id) <==> Chosen(i, n - 1, id) || own == Some(id))
            && (own.Some? ==> !Chosen(i, n - 1, own.value))
  {
    var own := FirstLinked(i.records, i.ids, i.shifts[n - 1].id);
    forall k | 0 <= k < n - 1
      ensures own.Some? ==> FirstLinked(i.records, i.ids, i.shifts[k].id) != own
    {
      FirstLinkedFinds(i.records, i.ids, i.shifts[k].id);
      FirstLinkedFinds(i.records, i.ids, i.shifts[n - 1].id);
      assert i.shifts[k].id != i.shifts[n - 1].id;
    }
  }

  lemma {:induction false} RecordSlotsReport(i: Input, ids: seq<nat>, w: Measure)
    ensures Sum(RecordSlots(ids), SlotMinutes(i, w)) == Sum(ids, RecordMinutes(i, w))
    decreases |ids|
  {
    if ids != [] {
      var n := |ids| - 1;
      RecordSlotsReport(i, ids[..n], w);
      assert RecordSlots(ids)[..n] == RecordSlots(ids[..n]);
    }
  }

  lemma {:induction false} UnlinkedIdsReport(i: Input, ids: seq<nat>, w: Measure)
    ensures Sum(UnlinkedIds(i.records, ids), RecordMinutes(i, w)) == Sum(ids, UnlinkedMinutes(i, w))
    decreases |ids|
  {
    if ids != [] {
      var n := |ids| - 1;
      UnlinkedIdsReport(i, ids[..n], w);
      if Unlinked(i.records, ids[n]) {
        SumAppend(UnlinkedIds(i.records, ids[..n]), ids[n], RecordMinutes(i, w));
      } else {
        assert UnlinkedIds(i.records, ids) == UnlinkedIds(i.records, ids[..n]);
      }
    }
  }

  function Indices(n: nat): (r: seq<nat>)
    ensures |r| == n && forall k | 0 <= k < n :: r[k] == k
  {
    seq(n, k requires 0 <= k < n => k)
  }

  function MinutesAtEntry(entries: seq<Entry>, w: Measure): nat -> nat {
    (k: nat) => if k < |entries| then EntryMeasure(entries[k], w) else 0
  }

  function OwnedMinutes(entries: seq<Entry>, records: seq<Record>, slots: seq<Slot>, n: nat, w: Measure): nat -> nat
    requires n <= |slots|
  {
    (k: nat) => if k < |entries| && Owned(entries, records, slots, n, k) then EntryMeasure(entries[k], w) else 0
  }

  function StaleMinutes(entries: seq<Entry>, i: Input, w: Measure): nat -> nat {
    (k: nat) => if Stale(entries, i, k) then EntryMeasure(entries[k], w) else 0
  }

  /** Sums over entries are sums over their positions. */
  lemma {:induction false} SumByPosition(entries: seq<Entry>, n: nat, w: Measure)
    requires n <= |entries|
    ensures Sum(entries[..n], EntryMinutes(w)) == Sum(Indices(n), MinutesAtEntry(entries, w))
    decreases n
  {
    if n == 0 {
      assert entries[..0] == [] && Indices(0) == [];
    } else {
      SumByPosition(entries, n - 1, w);
      var last: nat := n - 1;
      assert entries[..n] == entries[..last] + [entries[last]] && Indices(n) == Indices(last) + [last];
      SumAppend(entries[..last], entries[last], EntryMinutes(w));
      SumAppend(Indices(last), last, MinutesAtEntry(entries, w));
    }
  }

  /** Different slots own different entries. */
  lemma OwnersDiffer(p: Progress, i: Input, slots: seq<Slot>, n: nat)
    requires ValidInput(i) && SlotsOk(i, slots) && n < |slots| && AllUpToDate(p, i, slots, |slots|)
    ensures FindEntry(p.entries, i.records, slots[n]).Some?
    ensures var k := FindEntry(p.entries, i.records, slots[n]).value;
            && !Owned(p.entries, i.records, slots, n, k)
            && forall m: nat | m != k :: Owned(p.entries, i.records, slots, n + 1, m) <==> Owned(p.entries, i.records, slots, n, m)
  {
    assert UpToDate(p, i, slots[n]);
    forall j | 0 <= j < n
      ensures FindEntry(p.entries, i.records, slots[j]) != FindEntry(p.entries, i.records, slots[n])
    {
      OthersStayUpToDate(p, i, slots[j], slots[n]);
    }
  }

  lemma OwnEntryReportsSlot(p: Progress, i: Input, slot: Slot, w: Measure)
    requires ValidInput(i) && SlotOk(i, slot) && UpToDate(p, i, slot)
    ensures EntryMeasure(p.entries[FindEntry(p.entries, i.records, slot).value], w) == SlotMinutes(i, w)(slot)
  {}

  lemma OneMoreOwner(p: Progress, i: Input, slots: seq<Slot>, n: nat, w: Measure)
    requires ValidInput(i) && SlotsOk(i, slots) && n < |slots| && AllUpToDate(p, i, slots, |slots|)
    ensures Sum(Indices(|p.entries|), OwnedMinutes(p.entries, i.records, slots, n + 1, w))
         == Sum(Indices(|p.entries|), OwnedMinutes(p.entries, i.records, slots, n, w)) + SlotMinutes(i, w)(slots[n])
  {
    OwnersDiffer(p, i, slots, n);
    OwnEntryReportsSlot(p, i, slots[n], w);
    var k := FindEntry(p.entries, i.records, slots[n]).value;
    assert Owned(p.entries, i.records, slots, n + 1, k);
    SumDiffersAt(Indices(|p.entries|), k, OwnedMinutes(p.entries, i.records, slots, n, w), OwnedMinutes(p.entries, i.records, slots, n + 1, w));
  }

  lemma {:induction false} OwnedReportSlots(p: Progress, i: Input, slots: seq<Slot>, n: nat, w: Measure)
    requires ValidInput(i) && SlotsOk(i, slots) && n <= |slots| && AllUpToDate(p, i, slots, |slots|)
    ensures Sum(Indices(|p.entries|), OwnedMinutes(p.entries, i.records, slots, n, w)) == Sum(slots[..n], SlotMinutes(i, w))
    decreases n
  {
    if n == 0 {
      assert slots[..0] == [];
      SumZero(Indices(|p.entries|), OwnedMinutes(p.entries, i.records, slots, 0, w));
    } else {
      OwnedReportSlots(p, i, slots, n - 1, w);
      assert slots[..n] == slots[..n - 1] + [slots[n - 1]];
      SumAppend(slots[..n - 1], slots[n - 1], SlotMinutes(i, w));
      OneMoreOwner(p, i, slots, n - 1, w);
    }
  }

  lemma EntriesOwnedOrStale(entries: seq<Entry>, i: Input, w: Measure)
    ensures Sum(entries, EntryMinutes(w))
         == Sum(Indices(|entries|), OwnedMinutes(entries, i.records, Slots(i), |Slots(i)|, w))
          + Sum(Indices(|entries|), StaleMinutes(entries, i, w))
  {
    assert entries[..|entries|] == entries;
    SumByPosition(entries, |entries|, w);
    SumPointwise(Indices(|entries|), OwnedMinutes(entries, i.records, Slots(i), |Slots(i)|, w),
                 StaleMinutes(entries, i, w), MinutesAtEntry(entries, w));
  }

  lemma SlotsReportRecords(i: Input, w: Measure)
    requires ValidInput(i)
    ensures Sum(i.ids, RecordMinutes(i, w)) == Sum(Slots(i), SlotMinutes(i, w)) + Sum(i.ids, DroppedMinutes(i, w))
  {
    SumConcat(ShiftSlots(i, |i.shifts|), RecordSlots(UnlinkedIds(i.records, i.ids)), SlotMinutes(i, w));
    ShiftSlotsReport(i, |i.shifts|, w);
    RecordSlotsReport(i, UnlinkedIds(i.records, i.ids), w);
    UnlinkedIdsReport(i, i.ids, w);
    WhereRecordsGo(i, w);
  }

  /** A settled timesheet reports the minutes of the records, less those of dropped records, plus those of
      stale entries. */
  lemma SettledSheetReports(b: Book, i: Input, w: Measure)
    requires ValidInput(i) && Settled(b, i)
    ensures var entries := b.sheets[i.key].entries;
            Sum(entries, EntryMinutes(w)) + Sum(i.ids, DroppedMinutes(i, w))
            == Sum(i.ids, RecordMinutes(i, w)) + Sum(Indices(|entries|), StaleMinutes(entries, i, w))
  {
    var entries, slots := b.sheets[i.key].entries, Slots(i);
    SlotsAreOk(i);
    SlotsReportRecords(i, w);
    OwnedReportSlots(Progress(entries, b.exceptions), i, slots, |slots|, w);
    assert slots[..|slots|] == slots;
    EntriesOwnedOrStale(entries, i, w);
  }

  function GeneratedMinutes(b: Book, i: Input, w: Measure): nat
    requires CanGenerate(b, i.key)
  {
    Sum(Generate(b, i).sheets[i.key].entries, EntryMinutes(w))
  }

  function LeftMinutes(before: seq<Entry>, i: Input, w: Measure): nat -> nat {
    (k: nat) => if LeftOver(before, i, k) then EntryMeasure(before[k], w) else 0
  }

  /** The minutes of the old entries that no slot takes over. */
  function LeftOverMinutes(before: seq<Entry>, i: Input, w: Measure): nat {
    Sum(Indices(|before|), LeftMinutes(before, i, w))
  }

  lemma StaleMinutesAreLeftOver(before: seq<Entry>, after: seq<Entry>, i: Input, w: Measure)
    requires TakesOver(before, after, i.records, Slots(i), |Slots(i)|)
    ensures Sum(Indices(|after|), StaleMinutes(after, i, w)) == LeftOverMinutes(before, i, w)
  {
    var kept, added := Indices(|before|), Indices(|after|)[|before|..];
    assert Indices(|after|) == kept + added;
    SumConcat(kept, added, StaleMinutes(after, i, w));
    SumSame(kept, StaleMinutes(after, i, w), LeftMinutes(before, i, w));
    SumZero(added, StaleMinutes(after, i, w));
  }

  /** Where every actual, payable and overtime minute goes, in a first or a later generation: into exactly
      one entry, unless its record is dropped; and what a timesheet reports besides is that of the old
      entries left over. */
  lemma MinutesAreAccountedFor(b: Book, i: Input, w: Measure)
    requires ValidInput(i) && CanGenerate(b, i.key)
    ensures GeneratedMinutes(b, i, w) + Sum(i.ids, DroppedMinutes(i, w))
         == Sum(i.ids, RecordMinutes(i, w)) + LeftOverMinutes(DraftOf(b.sheets, i.key).entries, i, w)
  {
    GenerateSettles(b, i);
    SettledSheetReports(Generate(b, i), i, w);
    StaleMinutesAreLeftOver(DraftOf(b.sheets, i.key).entries, Generate(b, i).sheets[i.key].entries, i, w);
  }

  lemma WhereRecordsGo(i: Input, w: Measure)
    requires ValidInput(i)
    ensures Sum(i.ids, RecordMinutes(i, w))
         == Sum(i.ids, UnlinkedMinutes(i, w)) + Sum(i.ids, ChosenMinutes(i, |i.shifts|, w)) + Sum(i.ids, DroppedMinutes(i, w))
  {
    forall k | 0 <= k < |i.ids|
      ensures RecordMinutes(i, w)(i.ids[k]) == UnlinkedMinutes(i, w)(i.ids[k]) + LinkedMinutes(i, w)(i.ids[k])
    {
      if Chosen(i, |i.shifts|, i.ids[k]) {
        var m :| 0 <= m < |i.shifts| && FirstLinked(i.records, i.ids, i.shifts[m].id) == Some(i.ids[k]);
        FirstLinkedFinds(i.records, i.ids, i.shifts[m].id);
      }
    }
    SumPointwise(i.ids, UnlinkedMinutes(i, w), LinkedMinutes(i, w), RecordMinutes(i, w));
    SumPointwise(i.ids, ChosenMinutes(i, |i.shifts|, w), DroppedMinutes(i, w), LinkedMinutes(i, w));
  }

  lemma DroppedReportNothing(i: Input, w: Measure)
    requires ValidInput(i)
    ensures Sum(i.ids, DroppedMinutes(i, w)) == 0
      <==> forall k | 0 <= k < |i.ids| :: Dropped(i, i.ids[k]) ==> MinutesAt(i.records, i.ids[k], w) == 0
  {
    SumZero(i.ids, DroppedMinutes(i, w));
    forall k | 0 <= k < |i.ids|
      ensures DroppedMinutes(i, w)(i.ids[k]) == 0 <==> (Dropped(i, i.ids[k]) ==> MinutesAt(i.records, i.ids[k], w) == 0)
    {}
  }

  /** The timesheet reports exactly the recorded time if and only if the records to be dropped hold as much
      of it as the old entries to be left over; on a first generation, if and only if no dropped record
      holds any. Both sides are known before the generation. */
  lemma ConservationExactly(b: Book, i: Input, w: Measure)
    requires ValidInput(i) && CanGenerate(b, i.key)
    ensures GeneratedMinutes(b, i, w) == Sum(i.ids, RecordMinutes(i, w))
            <==> Sum(i.ids, DroppedMinutes(i, w)) == LeftOverMinutes(DraftOf(b.sheets, i.key).entries, i, w)
    ensures i.key !in b.sheets ==>
              (GeneratedMinutes(b, i, w) == Sum(i.ids, RecordMinutes(i, w))
               <==> forall k | 0 <= k < |i.ids| :: Dropped(i, i.ids[k]) ==> MinutesAt(i.records, i.ids[k], w) == 0)
  {
    MinutesAreAccountedFor(b, i, w);
    DroppedReportNothing(i, w);
  }

  // ---------------------------------------------------------------- three inputs that go wrong

  const WITNESS_SHIFT := Shift(7, 0, 0, 0, 8 * HOUR, 0)

  /** Eight paid hours on that shift. */
  const WITNESS_RECORD :=
    Record(0, Some(WITNESS_SHIFT), Policy(0, 0, None, None, 960, false, 0), 0, Some(0), Some(8 * HOUR), Some(0), Some(8 * HOUR),
           Some(0), Some(8 * HOUR), Minutes(480, 480, 0, 480, 0, 0, 0), Completed, [], [])

  const WITNESS_KEY := Key(0, 0, DAY - 1)

  const NO_BOOK := Book(map[], [])

  lemma WitnessSlots(records: seq<Record>, ids: seq<nat>)
    requires (records == [] && ids == []) || (records == [WITNESS_RECORD] && ids == [0]) || (records == [WITNESS_RECORD, WITNESS_RECORD] && ids == [0, 1])
    ensures ValidInput(Input(WITNESS_KEY, records, ids, [WITNESS_SHIFT]))
    ensures Slots(Input(WITNESS_KEY, records, ids, [WITNESS_SHIFT])) == [Slot(if ids == [] then None else Some(0), Some(WITNESS_SHIFT))]
  {
    var i := Input(WITNESS_KEY, records, ids, [WITNESS_SHIFT]);
    assert UnlinkedIds(records, []) == [];
    if |ids| >= 1 {
      assert ids[..1] == [0] && [0][..0] == [];
      assert UnlinkedIds(records, [0]) == [];
    }
    assert UnlinkedIds(records, ids) == [];
    assert ShiftSlots(i, 1) == [Slot(FirstLinked(records, ids, 7), Some(WITNESS_SHIFT))];
  }

  /** Two records of one shift, for example of a split day: only the first is paid. */
  lemma SecondRecordIsUnpaid() returns (i: Input)
    ensures ValidInput(i) && |i.ids| == 2
    ensures Sum(i.ids, RecordMinutes(i, PayableTime)) == 960
    ensures GeneratedMinutes(NO_BOOK, i, PayableTime) == 480
  {
    i := Input(WITNESS_KEY, [WITNESS_RECORD, WITNESS_RECORD], [0, 1], [WITNESS_SHIFT]);
    WitnessSlots(i.records, i.ids);
    assert FirstLinked(i.records, i.ids, i.shifts[0].id) == Some(0);
    assert !Dropped(i, 0) && Dropped(i, 1);
    SumPair<nat>(0, 1, RecordMinutes(i, PayableTime));
    SumPair<nat>(0, 1, DroppedMinutes(i, PayableTime));
    MinutesAreAccountedFor(NO_BOOK, i, PayableTime);
  }

  /** A generation before the record is there, and another one after: the timesheet lists the shift twice. */
  lemma LateRecordListsShiftTwice() returns (early: Input, late: Input, m: nat)
    ensures ValidInput(early) && ValidInput(late) && early.key == late.key && early.shifts == late.shifts == [WITNESS_SHIFT]
    ensures early.ids == [] && late.ids == [0]
    ensures late.key in Generate(Generate(NO_BOOK, early), late).sheets
    ensures var entries := Generate(Generate(NO_BOOK, early), late).sheets[late.key].entries;
            && 0 < m < |entries|
            && entries[0].shift == Some(7) && entries[0].record.None?
            && entries[m].shift == Some(7) && entries[m].record == Some(0)
  {
    early := Input(WITNESS_KEY, [], [], [WITNESS_SHIFT]);
    late := Input(WITNESS_KEY, [WITNESS_RECORD], [0], [WITNESS_SHIFT]);
    WitnessSlots([], []);
    WitnessSlots([WITNESS_RECORD], [0]);
    var b, slot := Generate(NO_BOOK, early), Slot(None, Some(WITNESS_SHIFT));
    assert [slot][..0] == [];
    assert ProcessAll(Progress([], []), early, []) == Progress([], []);
    assert FullPass(NO_BOOK, early) == Process(Progress([], []), early, slot);
    assert FindEntry([], [], slot) == None;
    assert b.sheets[early.key].entries[0].shift == Some(7) && b.sheets[early.key].entries[0].record.None?;
    assert FirstLinked(late.records, late.ids, 7) == Some(0);
    m := LateRecordAddsSecondEntry(b, late, 0, 0);
  }

  const UNSCHEDULED := WITNESS_RECORD.(shift := None)

  const EARLY := Input(WITNESS_KEY, [UNSCHEDULED], [0], [])

  const LATE := Input(WITNESS_KEY, [WITNESS_RECORD], [0], [WITNESS_SHIFT])

  lemma EarlyTimesheet()
    ensures EARLY.key in Generate(NO_BOOK, EARLY).sheets && Generate(NO_BOOK, EARLY).sheets[EARLY.key].status == Draft
    ensures Generate(NO_BOOK, EARLY).sheets[EARLY.key].entries == [EntryFor([UNSCHEDULED], Slot(Some(0), None), 0)]
  {
    var slot, ids: seq<nat> := Slot(Some(0), None), [0];
    assert ids[..0] == [] && UnlinkedIds([UNSCHEDULED], []) == [];
    assert UnlinkedIds([UNSCHEDULED], ids) == ids;
    assert Slots(EARLY) == [slot] && [slot][..0] == [];
    assert ProcessAll(Progress([], []), EARLY, []) == Progress([], []);
    assert FullPass(NO_BOOK, EARLY) == Process(Progress([], []), EARLY, slot);
    assert FindEntry([], [UNSCHEDULED], slot) == None;
  }

  lemma OneIdSum(weight: nat -> nat)
    ensures Sum([0 as nat], weight) == weight(0)
  {
    var none: seq<nat> := [];
    SumAppend(none, 0, weight);
    assert none + [0] == [0];
  }

  lemma LateMinutes(before: seq<Entry>)
    requires |before| == 1 && before[0].shift.None?
    ensures ValidInput(LATE) && Sum(LATE.ids, RecordMinutes(LATE, PayableTime)) == 480
    ensures Sum(LATE.ids, DroppedMinutes(LATE, PayableTime)) == 0
    ensures LeftOverMinutes(before, LATE, PayableTime) == before[0].payable
  {
    WitnessSlots(LATE.records, LATE.ids);
    WitnessTakesNothing(before, LATE);
    OneIdSum(RecordMinutes(LATE, PayableTime));
    OneIdSum(DroppedMinutes(LATE, PayableTime));
    OneIdSum(LeftMinutes(before, LATE, PayableTime));
    assert Indices(1) == [0];
    assert FirstLinked(LATE.records, LATE.ids, LATE.shifts[0].id) == Some(0);
    assert !Dropped(LATE, 0);
  }

  /** A record generated as unscheduled, then linked to a shift published later, and generated again: the
      lookup asks for the shift too, misses the old entry and adds one, and the record is paid twice. */
  lemma LinkedRecordIsPaidTwice()
    ensures ValidInput(EARLY) && ValidInput(LATE) && EARLY.key == LATE.key && EARLY.ids == LATE.ids == [0]
    ensures LATE.records == [UNSCHEDULED.(shift := Some(WITNESS_SHIFT))] && EARLY.records == [UNSCHEDULED]
    ensures CanGenerate(Generate(NO_BOOK, EARLY), LATE.key)
    ensures Sum(LATE.ids, RecordMinutes(LATE, PayableTime)) == 480
    ensures GeneratedMinutes(Generate(NO_BOOK, EARLY), LATE, PayableTime) == 960
  {
    EarlyTimesheet();
    LateMinutes(Generate(NO_BOOK, EARLY).sheets[EARLY.key].entries);
    MinutesAreAccountedFor(Generate(NO_BOOK, EARLY), LATE, PayableTime);
  }

  lemma WitnessTakesNothing(before: seq<Entry>, late: Input)
    requires |before| == 1 && before[0].shift.None? && late == Input(WITNESS_KEY, [WITNESS_RECORD], [0], [WITNESS_SHIFT])
    ensures LeftOver(before, late, 0)
  {
    WitnessSlots([WITNESS_RECORD], [0]);
    var slots := Slots(late);
    assert Taken(before, late.records, slots, 0) == {};
    FirstFreeFinds(before, late.records, slots[0], {});
    assert Taken(before, late.records, slots, 1) == {};
  }

  // ---------------------------------------------------------------- totals

  ghost predicate EntriesOk(entries: seq<Entry>) {
    forall k | 0 <= k < |entries| :: entries[k].overtime <= entries[k].payable
  }

  /** The stored totals are those of the entries, and split their payable time. */
  ghost predicate SheetOk(s: Sheet) { s.totals == Recalculate(s.entries) && EntriesOk(s.entries) }

  lemma RegularPlusOvertime(entries: seq<Entry>)
    requires EntriesOk(entries)
    ensures Sum(entries, Regular()) + Sum(entries, Overtime()) == Sum(entries, Payable())
  {
    SumPointwise(entries, Regular(), Overtime(), Payable());
  }

  ghost predicate RecordsOk(records: seq<Record>) {
    forall k | 0 <= k < |records| :: records[k].minutes.overtime <= records[k].minutes.payable
  }

  ghost predicate SheetsOk(sheets: map<Key, Sheet>) {
    forall key | key in sheets :: SheetOk(sheets[key])
  }

  lemma UpsertKeepsEntriesOk(entries: seq<Entry>, exceptions: seq<ExceptionRow>, records: seq<Record>, e: EmployeeId, slot: Slot)
    requires RecordsOk(records) && EntriesOk(entries)
    ensures EntriesOk(UpsertEntry(entries, exceptions, records, e, slot))
  {
    var data := EntryFor(records, slot, CountExceptions(exceptions, e, slot));
    assert data.overtime <= data.payable;
  }

  lemma {:induction false} ProcessKeepsEntriesOk(p: Progress, i: Input, slots: seq<Slot>)
    requires RecordsOk(i.records) && EntriesOk(p.entries)
    ensures EntriesOk(ProcessAll(p, i, slots).entries)
    decreases |slots|
  {
    if slots != [] {
      var n := |slots| - 1;
      ProcessKeepsEntriesOk(p, i, slots[..n]);
      var q := ProcessAll(p, i, slots[..n]);
      UpsertKeepsEntriesOk(q.entries, ExceptionsAfter(q.exceptions, i.key.employee, slots[n]), i.records, i.key.employee, slots[n]);
    }
  }

  lemma GenerateKeepsSheetsOk(b: Book, i: Input)
    requires RecordsOk(i.records) && SheetsOk(b.sheets)
    ensures SheetsOk(Generate(b, i).sheets)
  {
    if CanGenerate(b, i.key) {
      assert i.key in b.sheets ==> SheetOk(b.sheets[i.key]);
      ProcessKeepsEntriesOk(Progress(DraftOf(b.sheets, i.key).entries, b.exceptions), i, Slots(i));
    }
  }
}
