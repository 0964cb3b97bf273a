/** The punch state machine: how clock-in, break and clock-out punches build attendance records. */
module Punches {
  import opened Time
  import opened Wrappers
  import opened Metrics

  datatype PunchType = ClockIn | BreakStart | BreakEnd | ClockOut

  datatype RecordStatus = Open | Completed | Flagged | Voided

  datatype Break = Break(startedAt: int, endedAt: Option<int>, minutes: nat)

  /** The id a client gives to a punch. */
  type MutationId = string

  /** `client` is the id the client sent along, if any; `offline` names the offline ledger row the punch
      was replayed from, if any. */
  datatype Punch = Punch(kind: PunchType, at: int, client: Option<MutationId>, offline: Option<MutationId>)

  /** A row of the record table together with its break and punch rows. A row's id is its position. */
  datatype Record = Record(
    employee: EmployeeId,
    shift: Option<Shift>,
    policy: Policy,
    workDate: int,
    scheduledStart: Option<int>,
    scheduledEnd: Option<int>,
    clockIn: Option<int>,
    clockOut: Option<int>,
    firstPunch: Option<int>,
    lastPunch: Option<int>,
    minutes: Minutes,
    status: RecordStatus,
    breaks: seq<Break>,
    punches: seq<Punch>)

  datatype PunchError =
    | PolicyBlocked | AlreadyClockedIn | ClockInFirst | EndBreakFirst | BreakAlreadyActive | NoActiveBreak

  /** One punch call. `blockedBefore` and `blockedAfter` stand for the device, geofence, source and
      attestation rules of the two policy evaluations; the clock-range rules are modelled. */
  datatype Request = Request(
    employee: EmployeeId,
    kind: PunchType,
    at: int,
    now: int,
    shift: Option<Shift>,
    policy: Policy,
    blockedBefore: bool,
    blockedAfter: bool,
    client: Option<MutationId>,
    offline: Option<MutationId>)

  // ---------------------------------------------------------------- what one punch does

  function FindOpen(records: seq<Record>, e: EmployeeId): (r: Option<nat>)
    ensures r.Some? ==> r.value < |records| && records[r.value].employee == e && records[r.value].status == Open
    ensures r.None? ==> forall i | 0 <= i < |records| && records[i].employee == e :: records[i].status != Open
  {
    if records == [] then None
    else
      var r := FindOpen(records[..|records| - 1], e);
      if r.Some? then r
      else if records[|records| - 1].employee == e && records[|records| - 1].status == Open then Some(|records| - 1)
      else None
  }

  /** The open break that started last. */
  function OpenBreak(breaks: seq<Break>): (r: Option<nat>)
    ensures r.Some? ==> r.value < |breaks| && breaks[r.value].endedAt.None?
    ensures r.Some? ==> forall i | 0 <= i < |breaks| && breaks[i].endedAt.None? :: breaks[i].startedAt <= breaks[r.value].startedAt
    ensures r.None? ==> forall i | 0 <= i < |breaks| :: breaks[i].endedAt.Some?
  {
    if breaks == [] then None
    else
      var last := |breaks| - 1;
      var r := OpenBreak(breaks[..last]);
      if breaks[last].endedAt.Some? then r
      else if r.Some? && breaks[r.value].startedAt > breaks[last].startedAt then r
      else Some(last)
  }

  function NewRecord(req: Request): Record {
    var shift := req.shift;
    Record(
      req.employee, shift, req.policy,
      if shift.Some? then shift.value.workDate else StartOfDay(req.at),
      if shift.Some? then Some(shift.value.startsAt) else None,
      if shift.Some? then Some(shift.value.endsAt) else None,
      None, None, None, None,
      Minutes(
        if shift.Some? then DurationMinutes(shift.value.startsAt, shift.value.endsAt, shift.value.breakMinutes) else 0,
        0, if shift.Some? then shift.value.breakMinutes else 0, 0, 0, 0, 0),
      Open, [], [])
  }

  /** The clock-range rules of the policy, in force when the clock-out time is known. */
  predicate ClockRangeAllowed(policy: Policy, now: int, clockIn: int, clockOut: int) {
    && clockIn < clockOut
    && clockIn <= now + 15 * MINUTE
    && clockOut <= now + 15 * MINUTE
    && DurationMinutes(clockIn, clockOut, 0) <= policy.maxShift
  }

  function PunchRejection(r: Record, req: Request): Option<PunchError> {
    var openBreak := OpenBreak(r.breaks);
    if req.kind == ClockIn && r.clockIn.Some? then Some(AlreadyClockedIn)
    else if req.kind != ClockIn && r.clockIn.None? then Some(ClockInFirst)
    else if req.kind == ClockOut && openBreak.Some? then Some(EndBreakFirst)
    else if req.kind == BreakStart && openBreak.Some? then Some(BreakAlreadyActive)
    else if req.kind == BreakEnd && openBreak.None? then Some(NoActiveBreak)
    else if req.blockedAfter then Some(PolicyBlocked)
    else if req.kind == ClockOut && !ClockRangeAllowed(req.policy, req.now, r.clockIn.value, req.at) then Some(PolicyBlocked)
    else None
  }

  function ApplyPunch(r: Record, policy: Policy, kind: PunchType, at: int): Record
    requires kind == BreakEnd ==> OpenBreak(r.breaks).Some?
  {
    match kind
    case BreakStart =>
      r.(breaks := r.breaks + [Break(at, None, 0)], lastPunch := Some(at))
    case BreakEnd =>
      var i := OpenBreak(r.breaks).value;
      var minutes := DurationMinutes(r.breaks[i].startedAt, at, 0);
      r.(breaks := r.breaks[i := Break(r.breaks[i].startedAt, Some(at), minutes)],
         minutes := r.minutes.(breaks := r.minutes.breaks + minutes),
         lastPunch := Some(at))
    case _ =>
      var clockIn := if kind == ClockIn then Some(at) else r.clockIn;
      var clockOut := if kind == ClockOut then Some(at) else r.clockOut;
      var m := CalculateMetrics(policy, None, r.scheduledStart, r.scheduledEnd, clockIn, clockOut, r.minutes.breaks);
      r.(clockIn := clockIn,
         clockOut := clockOut,
         firstPunch := if r.firstPunch.Some? then r.firstPunch else Some(at),
         lastPunch := Some(at),
         minutes := r.minutes.(actual := m.actual, payable := m.payable, overtime := m.overtime,
                               late := m.late, earlyLeave := m.earlyLeave),
         status := if kind == ClockOut then Completed else Open)
  }

  /** The record the punch lands on, as the transaction sees it. */
  function Target(records: seq<Record>, req: Request): Record {
    var i := FindOpen(records, req.employee);
    if i.Some? then records[i.value] else NewRecord(req)
  }

  function Store(records: seq<Record>, req: Request, r: Record): seq<Record> {
    var i := FindOpen(records, req.employee);
    if i.Some? then records[i.value := r] else records + [r]
  }

  /** The record id a punch lands on. */
  function TargetId(records: seq<Record>, req: Request): nat {
    FindOpen(records, req.employee).GetOr(|records|)
  }

  function Accepted(records: seq<Record>, req: Request): bool {
    !req.blockedBefore && PunchRejection(Target(records, req), req).None?
  }

  function Punched(r: Record, req: Request): Record
    requires PunchRejection(r, req).None?
  {
    ApplyPunch(r.(punches := r.punches + [Punch(req.kind, req.at, req.client, req.offline)]), req.policy, req.kind, req.at)
  }

  /** The whole transaction: an error leaves the table unchanged. */
  function PunchStep(records: seq<Record>, req: Request): seq<Record> {
    if Accepted(records, req) then Store(records, req, Punched(Target(records, req), req)) else records
  }

  function PunchRun(records: seq<Record>, reqs: seq<Request>): seq<Record> {
    if reqs == [] then records else PunchStep(PunchRun(records, reqs[..|reqs| - 1]), reqs[|reqs| - 1])
  }

  class AttendanceStore {
    var records: seq<Record>

    constructor ()
      ensures records == []
    {
      records := [];
    }

    method FindOrCreateOpenRecord(req: Request) returns (id: nat, created: bool)
      modifies this
      ensures created <==> FindOpen(old(records), req.employee).None?
      ensures id == TargetId(old(records), req) < |records|
      ensures records == if created then old(records) + [NewRecord(req)] else old(records)
    {
      var existing := FindOpen(records, req.employee);
      if existing.Some? {
        return existing.value, false;
      }
      records := records + [NewRecord(req)];
      return |records| - 1, true;
    }

    method ApplyPunchToRecord(id: nat, policy: Policy, kind: PunchType, at: int)
      requires id < |records|
      requires kind == BreakEnd ==> OpenBreak(records[id].breaks).Some?
      modifies this
      ensures |records| == |old(records)| && records == old(records)[id := ApplyPunch(old(records)[id], policy, kind, at)]
    {
      var r := records[id];
      if kind == BreakStart {
        r := r.(breaks := r.breaks + [Break(at, None, 0)], lastPunch := Some(at));
        records := records[id := r];
        return;
      }
      if kind == BreakEnd {
        var i := OpenBreak(r.breaks).value;
        var minutes := DurationMinutes(r.breaks[i].startedAt, at, 0);
        r := r.(breaks := r.breaks[i := r.breaks[i].(endedAt := Some(at), minutes := minutes)]);
        r := r.(minutes := r.minutes.(breaks := r.minutes.breaks + minutes), lastPunch := Some(at));
        records := records[id := r];
        return;
      }
      var clockIn := if kind == ClockIn then Some(at) else r.clockIn;
      var clockOut := if kind == ClockOut then Some(at) else r.clockOut;
      var m := CalculateMetrics(policy, None, r.scheduledStart, r.scheduledEnd, clockIn, clockOut, r.minutes.breaks);
      r := r.(clockIn := clockIn, clockOut := clockOut, lastPunch := Some(at));
      r := r.(firstPunch := if r.firstPunch.Some? then r.firstPunch else Some(at));
      r := r.(minutes := r.minutes.(actual := m.actual, payable := m.payable, overtime := m.overtime,
                                    late := m.late, earlyLeave := m.earlyLeave));
      r := r.(status := if kind == ClockOut then Completed else Open);
      records := records[id := r];
    }

    /** A transaction: whatever was written before an error is rolled back. */
    method RecordPunch(req: Request) returns (result: Result<nat, PunchError>)
      modifies this
      ensures records == PunchStep(old(records), req)
      ensures result.Success? <==> Accepted(old(records), req)
      ensures result.Success? ==> result.value == TargetId(old(records), req)
      ensures result.Failure? ==>
                Some(result.error) == if req.blockedBefore then Some(PolicyBlocked) else PunchRejection(Target(old(records), req), req)
    {
      if req.blockedBefore {
        return Failure(PolicyBlocked);
      }
      var before := records;
      var id, created := FindOrCreateOpenRecord(req);
      var rejection := PunchRejection(records[id], req);
      if rejection.Some? {
        records := before;
        return Failure(rejection.value);
      }
      records := records[id := records[id].(punches := records[id].punches + [Punch(req.kind, req.at, req.client, req.offline)])];
      ApplyPunchToRecord(id, req.policy, req.kind, req.at);
      result := Success(id);
    }
  }

  // ---------------------------------------------------------------- the language of punches

  function Kinds(punches: seq<Punch>): (ks: seq<PunchType>)
    ensures |ks| == |punches|
  {
    seq(|punches|, i requires 0 <= i < |punches| => punches[i].kind)
  }

  /** IN (BREAK_START BREAK_END)^n OUT */
  function FullShift(n: nat): seq<PunchType> {
    [ClockIn] + BreakPairs(n) + [ClockOut]
  }

  function BreakPairs(n: nat): seq<PunchType> {
    if n == 0 then [] else BreakPairs(n - 1) + [BreakStart, BreakEnd]
  }

  /** Position by position: the same language, closed under prefixes. */
  predicate ValidRun(ks: seq<PunchType>) {
    forall i | 0 <= i < |ks| ::
      if i == 0 then ks[i] == ClockIn
      else if i % 2 == 1 then ks[i] == BreakStart || (ks[i] == ClockOut && i == |ks| - 1)
      else ks[i] == BreakEnd
  }

  lemma {:induction false} BreakPairsAt(n: nat)
    ensures |BreakPairs(n)| == 2 * n
    ensures forall i | 0 <= i < 2 * n :: BreakPairs(n)[i] == if i % 2 == 0 then BreakStart else BreakEnd
  {
    if n > 0 {
      BreakPairsAt(n - 1);
    }
  }

  lemma ValidRunIsPrefixOfShift(ks: seq<PunchType>)
    ensures ValidRun(ks) <==> exists n :: ks <= FullShift(n)
  {
    if ValidRun(ks) {
      var n := if |ks| > 0 && ks[|ks| - 1] == ClockOut then (|ks| - 2) / 2 else |ks|;
      BreakPairsAt(n);
      var full := FullShift(n);
      assert forall i | 0 <= i < |ks| :: ks[i] == full[i];
      assert ks <= full;
    }
    forall n | ks <= FullShift(n)
      ensures ValidRun(ks)
    {
      BreakPairsAt(n);
      assert forall i | 0 <= i < |ks| :: ks[i] == FullShift(n)[i];
    }
  }

  // ---------------------------------------------------------------- the invariant

  function ScheduledBreak(r: Record): nat {
    if r.shift.Some? then r.shift.value.breakMinutes else 0
  }

  function ClosedBreakMinutes(breaks: seq<Break>): nat {
    if breaks == [] then 0
    else
      var last := breaks[|breaks| - 1];
      ClosedBreakMinutes(breaks[..|breaks| - 1]) + (if last.endedAt.Some? then last.minutes else 0)
  }

  /** What a record built by punches alone looks like. */
  ghost predicate RecordOk(r: Record) {
    var ks := Kinds(r.punches);
    && |ks| > 0 && ValidRun(ks)
    && r.clockIn == r.firstPunch == Some(r.punches[0].at) && r.lastPunch == Some(r.punches[|ks| - 1].at)
    && (r.status == Open || r.status == Completed)
    && (r.status == Completed <==> ks[|ks| - 1] == ClockOut)
    && (r.status == Open ==> r.clockOut.None? && r.minutes.actual == 0 && |r.breaks| == |ks| / 2)
    && (r.status == Completed ==>
          && r.clockOut == Some(r.punches[|ks| - 1].at)
          && r.clockIn.value < r.clockOut.value
          && r.minutes.actual == DurationMinutes(r.clockIn.value, r.clockOut.value, 0))
    && (forall b | 0 <= b < |r.breaks| ::
          r.breaks[b].endedAt.None? <==> b == |r.breaks| - 1 && ks[|ks| - 1] == BreakStart)
    && r.minutes.breaks == ScheduledBreak(r) + ClosedBreakMinutes(r.breaks)
    && r.minutes.overtime <= r.minutes.payable
  }

  ghost predicate OneOpenRecord(records: seq<Record>) {
    forall i, j | 0 <= i < j < |records| && records[i].employee == records[j].employee ::
      !(records[i].status == Open && records[j].status == Open)
  }

  ghost predicate PunchInv(records: seq<Record>) {
    && OneOpenRecord(records)
    && forall i | 0 <= i < |records| :: RecordOk(records[i])
  }

  /** The punches an employee has accumulated on the open record, none if there is no open record. */
  function History(records: seq<Record>, e: EmployeeId): seq<PunchType> {
    var i := FindOpen(records, e);
    if i.Some? then Kinds(records[i.value].punches) else []
  }

  lemma ClosingABreak(breaks: seq<Break>, at: int, minutes: nat)
    requires |breaks| > 0 && breaks[|breaks| - 1].endedAt.None?
    ensures ClosedBreakMinutes(breaks[|breaks| - 1 := Break(breaks[|breaks| - 1].startedAt, Some(at), minutes)])
         == ClosedBreakMinutes(breaks) + minutes
  {
    var last := |breaks| - 1;
    var closed := breaks[last := Break(breaks[last].startedAt, Some(at), minutes)];
    assert closed[..last] == breaks[..last];
  }

  lemma StartingABreak(breaks: seq<Break>, at: int)
    ensures ClosedBreakMinutes(breaks + [Break(at, None, 0)]) == ClosedBreakMinutes(breaks)
  {
    assert (breaks + [Break(at, None, 0)])[..|breaks|] == breaks;
  }

  /** A record that punches can still land on: an open record, or the fresh one of an employee without. */
  ghost predicate TargetOk(r: Record) {
    || (RecordOk(r) && r.status == Open)
    || (r.punches == [] && r.breaks == [] && r.clockIn.None? && r.clockOut.None? && r.firstPunch.None? && r.status == Open
        && r.minutes.breaks == ScheduledBreak(r) && r.minutes.actual == r.minutes.payable == r.minutes.overtime == 0)
  }

  lemma TargetIsOk(records: seq<Record>, req: Request)
    requires PunchInv(records)
    ensures TargetOk(Target(records, req))
    ensures Kinds(Target(records, req).punches) == History(records, req.employee)
  {}

  /** The checks of the code accept exactly the extensions of the punch language. */
  lemma RejectionIsLanguage(r: Record, req: Request)
    requires TargetOk(r)
    ensures PunchRejection(r, req).None? <==>
              && ValidRun(Kinds(r.punches) + [req.kind])
              && !req.blockedAfter
              && (req.kind == ClockOut ==> r.clockIn.Some? && ClockRangeAllowed(req.policy, req.now, r.clockIn.value, req.at))
  {
    var ks := Kinds(r.punches);
    var ks' := ks + [req.kind];
    if |ks| > 0 {
      assert ks[|ks| - 1] == BreakStart <==> |ks| % 2 == 0;
      if |r.breaks| > 0 {
        assert r.breaks[|r.breaks| - 1].endedAt.None? <==> ks[|ks| - 1] == BreakStart;
      }
      assert OpenBreak(r.breaks).Some? <==> |ks| % 2 == 0;
      assert ks'[|ks|] == req.kind && ks[|ks| - 1] != ClockOut;
      assert forall i | 0 <= i < |ks| :: ks'[i] == ks[i] && ks[i] != ClockOut;
      assert ValidRun(ks') <==>
        if |ks| % 2 == 1 then req.kind == BreakStart || req.kind == ClockOut else req.kind == BreakEnd;
    } else {
      assert ValidRun(ks') <==> ks'[0] == ClockIn;
    }
  }

  lemma PunchedClockIsOk(r: Record, req: Request)
    requires TargetOk(r) && PunchRejection(r, req).None?
    requires req.kind == ClockIn || req.kind == ClockOut
    ensures RecordOk(Punched(r, req))
  {
    RejectionIsLanguage(r, req);
    var r' := Punched(r, req);
    assert Kinds(r'.punches) == Kinds(r.punches) + [req.kind];
    assert r'.breaks == r.breaks && r'.minutes.breaks == r.minutes.breaks;
    var clockOut := if req.kind == ClockOut then Some(req.at) else r.clockOut;
    var clockIn := if req.kind == ClockIn then Some(req.at) else r.clockIn;
    MetricsAreConsistent(req.policy, None, r.scheduledStart, r.scheduledEnd, clockIn, clockOut, r.minutes.breaks);
  }

  lemma StartedBreakIsOk(r: Record, req: Request)
    requires TargetOk(r) && PunchRejection(r, req).None? && req.kind == BreakStart
    ensures RecordOk(Punched(r, req))
  {
    assert RecordOk(r);
    RejectionIsLanguage(r, req);
    var r', n := Punched(r, req), |r.punches|;
    assert Kinds(r'.punches) == Kinds(r.punches) + [BreakStart];
    assert Kinds(r'.punches)[n] == BreakStart && n % 2 == 1;
    StartingABreak(r.breaks, req.at);
  }

  lemma EndedBreakIsOk(r: Record, req: Request)
    requires TargetOk(r) && PunchRejection(r, req).None? && req.kind == BreakEnd
    ensures RecordOk(Punched(r, req))
  {
    assert RecordOk(r);
    RejectionIsLanguage(r, req);
    var r', n := Punched(r, req), |r.punches|;
    assert Kinds(r'.punches) == Kinds(r.punches) + [BreakEnd];
    assert Kinds(r'.punches)[n] == BreakEnd && n % 2 == 0;
    var i := OpenBreak(r.breaks).value;
    assert i == |r.breaks| - 1;
    ClosingABreak(r.breaks, req.at, DurationMinutes(r.breaks[i].startedAt, req.at, 0));
  }

  lemma PunchedIsOk(r: Record, req: Request)
    requires TargetOk(r) && PunchRejection(r, req).None?
    ensures RecordOk(Punched(r, req))
  {
    if req.kind == ClockIn || req.kind == ClockOut {
      PunchedClockIsOk(r, req);
    } else if req.kind == BreakStart {
      StartedBreakIsOk(r, req);
    } else {
      EndedBreakIsOk(r, req);
    }
  }

  // ---------------------------------------------------------------- where the columns come from

  /** The schedule columns are those of the shift, or empty. */
  predicate ScheduleFits(r: Record) {
    && (r.shift.Some? ==>
          && r.workDate == r.shift.value.workDate
          && r.scheduledStart == Some(r.shift.value.startsAt) && r.scheduledEnd == Some(r.shift.value.endsAt)
          && MinutesBeyond(r.shift.value.endsAt - r.shift.value.startsAt, r.shift.value.breakMinutes, r.minutes.scheduled))
    && (r.shift.None? ==>
          && r.scheduledStart.None? && r.scheduledEnd.None? && r.minutes.scheduled == 0
          && (r.punches != [] ==> r.workDate == r.punches[0].at - r.punches[0].at % 86_400_000))
  }

  /** Break `k` runs from punch `2k + 1` to punch `2k + 2`, which its minutes measure. */
  predicate BreakFits(b: Break, k: nat, punches: seq<Punch>) {
    && 2 * k + 1 < |punches| && b.startedAt == punches[2 * k + 1].at
    && (b.endedAt.Some? ==>
          && 2 * k + 2 < |punches| && b.endedAt.value == punches[2 * k + 2].at
          && MinutesBeyond(b.endedAt.value - b.startedAt, 0, b.minutes))
  }

  predicate BreaksFit(breaks: seq<Break>, punches: seq<Punch>) {
    forall k: nat | k < |breaks| :: BreakFits(breaks[k], k, punches)
  }

  predicate RecordFits(r: Record) { ScheduleFits(r) && BreaksFit(r.breaks, r.punches) }

  lemma NewRecordFits(req: Request)
    ensures RecordFits(NewRecord(req))
  {
    if req.shift.Some? {
      DurationIsBeyond(req.shift.value.startsAt, req.shift.value.endsAt, req.shift.value.breakMinutes);
    }
  }

  lemma BreaksFitLonger(breaks: seq<Break>, punches: seq<Punch>, p: Punch)
    requires BreaksFit(breaks, punches)
    ensures BreaksFit(breaks, punches + [p])
  {
    forall k: nat | k < |breaks|
      ensures BreakFits(breaks[k], k, punches + [p])
    {
      assert BreakFits(breaks[k], k, punches);
    }
  }

  lemma StartedFits(breaks: seq<Break>, punches: seq<Punch>, p: Punch)
    requires BreaksFit(breaks, punches) && |punches| == 2 * |breaks| + 1
    ensures BreaksFit(breaks + [Break(p.at, None, 0)], punches + [p])
  {
    BreaksFitLonger(breaks, punches, p);
  }

  lemma EndedFits(breaks: seq<Break>, punches: seq<Punch>, p: Punch, i: nat)
    requires BreaksFit(breaks, punches) && i == |breaks| - 1 && |punches| == 2 * i + 2
    ensures BreaksFit(breaks[i := Break(breaks[i].startedAt, Some(p.at), DurationMinutes(breaks[i].startedAt, p.at, 0))], punches + [p])
  {
    BreaksFitLonger(breaks, punches, p);
    DurationIsBeyond(breaks[i].startedAt, p.at, 0);
    assert BreakFits(breaks[i], i, punches);
  }

  /** How far into the shift an open record is, by its breaks. */
  lemma BreaksSoFar(r: Record)
    requires RecordOk(r) && r.status == Open
    ensures OpenBreak(r.breaks).None? ==> |r.punches| == 2 * |r.breaks| + 1
    ensures OpenBreak(r.breaks).Some? ==> OpenBreak(r.breaks).value == |r.breaks| - 1 && |r.punches| == 2 * |r.breaks|
  {
    var ks := Kinds(r.punches);
    assert ks[|ks| - 1] == BreakStart <==> |ks| % 2 == 0;
    if |r.breaks| > 0 {
      assert r.breaks[|r.breaks| - 1].endedAt.None? <==> ks[|ks| - 1] == BreakStart;
    }
  }

  lemma PunchedFits(r: Record, req: Request)
    requires TargetOk(r) && RecordFits(r) && PunchRejection(r, req).None?
    requires r.punches == [] ==> r == NewRecord(req)
    ensures RecordFits(Punched(r, req))
  {
    var p := Punch(req.kind, req.at, req.client, req.offline);
    assert Punched(r, req).punches == r.punches + [p];
    if req.kind == BreakStart {
      BreaksSoFar(r);
      StartedFits(r.breaks, r.punches, p);
    } else if req.kind == BreakEnd {
      BreaksSoFar(r);
      EndedFits(r.breaks, r.punches, p, OpenBreak(r.breaks).value);
    } else {
      BreaksFitLonger(r.breaks, r.punches, p);
    }
  }

  /** The columns of a record as the policy of its clock-out pays them: nearest minutes worked, less the
      break minutes, to the policy's increment; overtime above the daily threshold, or above the scheduled
      time where the policy names none; lateness and early leave beyond grace. */
  ghost predicate PaidBy(r: Record, policy: Policy)
    requires r.clockIn.Some? && r.clockOut.Some?
  {
    var m := r.minutes;
    && MinutesBeyond(r.clockOut.value - r.clockIn.value, 0, m.actual)
    && PaidFor(if m.actual > m.breaks then m.actual - m.breaks else 0, policy, Threshold(r, policy), m.payable, m.overtime)
    && (r.scheduledStart.Some? ==> MinutesBeyond(r.clockIn.value - r.scheduledStart.value, policy.graceLate, m.late))
    && (r.scheduledEnd.Some? ==> MinutesBeyond(r.scheduledEnd.value - r.clockOut.value, policy.graceEarlyLeave, m.earlyLeave))
    && (r.scheduledStart.None? ==> m.late == 0) && (r.scheduledEnd.None? ==> m.earlyLeave == 0)
  }

  function Threshold(r: Record, policy: Policy): nat {
    if policy.dailyOvertime.Some? then policy.dailyOvertime.value
    else if r.scheduledStart.Some? && r.scheduledEnd.Some?
    then DurationMinutes(r.scheduledStart.value, r.scheduledEnd.value, r.minutes.breaks) else 0
  }

  lemma ClockedOutIsPaid(r: Record, req: Request)
    requires PunchRejection(r, req).None? && req.kind == ClockOut
    ensures var r' := Punched(r, req); r'.clockIn.Some? && r'.clockOut.Some? && PaidBy(r', req.policy)
  {
    MetricsColumns(req.policy, None, r.scheduledStart, r.scheduledEnd, r.clockIn, Some(req.at), r.minutes.breaks);
  }

  // ---------------------------------------------------------------- main results

  /** Which error a rejected punch is answered with. */
  lemma RejectionNames(r: Record, req: Request)
    ensures var e, onBreak := PunchRejection(r, req), exists i | 0 <= i < |r.breaks| :: r.breaks[i].endedAt.None?;
            && (e == Some(AlreadyClockedIn) <==> req.kind == ClockIn && r.clockIn.Some?)
            && (e == Some(ClockInFirst) <==> req.kind != ClockIn && r.clockIn.None?)
            && (e == Some(EndBreakFirst) <==> req.kind == ClockOut && r.clockIn.Some? && onBreak)
            && (e == Some(BreakAlreadyActive) <==> req.kind == BreakStart && r.clockIn.Some? && onBreak)
            && (e == Some(NoActiveBreak) <==> req.kind == BreakEnd && r.clockIn.Some? && !onBreak)
            && (e == Some(PolicyBlocked) ==>
                  || req.blockedAfter
                  || (req.kind == ClockOut && r.clockIn.Some? && !ClockRangeAllowed(req.policy, req.now, r.clockIn.value, req.at)))
  {}

  /** A clock-out is in range when it is later than the clock-in, within the longest shift to the nearest
      minute, and neither is more than a quarter of an hour ahead of the clock. */
  lemma ClockRangeExactly(policy: Policy, now: int, clockIn: int, clockOut: int)
    ensures ClockRangeAllowed(policy, now, clockIn, clockOut) <==>
              && 0 < clockOut - clockIn && 2 * (clockOut - clockIn) < (2 * policy.maxShift + 1) * 60_000
              && clockIn - now <= 900_000 && clockOut - now <= 900_000
  {}

  /** A punch is accepted exactly when it extends the employee's history within the punch language
      and no policy rule blocks it. */
  lemma AcceptedExactly(records: seq<Record>, req: Request)
    requires PunchInv(records)
    ensures Accepted(records, req) <==>
              && (exists n :: History(records, req.employee) + [req.kind] <= FullShift(n))
              && !req.blockedBefore && !req.blockedAfter
              && (req.kind == ClockOut ==>
                    && Target(records, req).clockIn.Some?
                    && ClockRangeAllowed(req.policy, req.now, Target(records, req).clockIn.value, req.at))
  {
    TargetIsOk(records, req);
    RejectionIsLanguage(Target(records, req), req);
    ValidRunIsPrefixOfShift(History(records, req.employee) + [req.kind]);
  }

  /** An accepted punch is appended to one record of its employee; every other record is untouched. */
  lemma PunchLandsOnce(records: seq<Record>, req: Request)
    requires Accepted(records, req)
    ensures var id, records' := TargetId(records, req), PunchStep(records, req);
            && id < |records'| <= |records| + 1
            && records'[id].employee == req.employee
            && records'[id].punches == (if id < |records| then records[id].punches else []) + [Punch(req.kind, req.at, req.client, req.offline)]
            && forall i | 0 <= i < |records| && i != id :: records'[i] == records[i]
  {}

  lemma PunchKeepsInv(records: seq<Record>, req: Request)
    requires PunchInv(records)
    ensures PunchInv(PunchStep(records, req))
  {
    if Accepted(records, req) {
      TargetIsOk(records, req);
      PunchedIsOk(Target(records, req), req);
    }
  }

  /** Over every run of punches by any employees under any policies. */
  lemma {:induction false} PunchRunKeepsInv(reqs: seq<Request>)
    ensures PunchInv(PunchRun([], reqs))
  {
    if reqs != [] {
      PunchRunKeepsInv(reqs[..|reqs| - 1]);
      PunchKeepsInv(PunchRun([], reqs[..|reqs| - 1]), reqs[|reqs| - 1]);
    }
  }

  /** Punch `k` of the run clocked record `i` out, as it still stands in `r`, within the limits of the
      policy and the clock of that punch. */
  ghost predicate ClockedOutBy(reqs: seq<Request>, k: nat, i: nat, r: Record) {
    && k < |reqs| && reqs[k].kind == ClockOut && reqs[k].employee == r.employee
    && Accepted(PunchRun([], reqs[..k]), reqs[k]) && TargetId(PunchRun([], reqs[..k]), reqs[k]) == i
    && r.clockIn.Some? && r.clockOut.Some? && r.clockOut == Some(reqs[k].at)
    && ClockRangeAllowed(reqs[k].policy, reqs[k].now, r.clockIn.value, reqs[k].at)
    && r.minutes.actual <= reqs[k].policy.maxShift
    && PaidBy(r, reqs[k].policy)
  }

  /** The punch that completes a record. */
  lemma CompletingPunch(records: seq<Record>, req: Request, i: nat)
    requires i < |PunchStep(records, req)| && PunchStep(records, req)[i].status == Completed
    requires i >= |records| || PunchStep(records, req)[i] != records[i]
    ensures Accepted(records, req) && TargetId(records, req) == i && req.kind == ClockOut
    ensures var r := PunchStep(records, req)[i];
            && r.employee == req.employee && r.clockIn.Some? && r.clockOut.Some? && r.clockOut == Some(req.at)
            && ClockRangeAllowed(req.policy, req.now, r.clockIn.value, req.at)
            && r.minutes.actual <= req.policy.maxShift
            && PaidBy(r, req.policy)
  {
    assert Target(records, req).status == Open;
    ClockedOutIsPaid(Target(records, req), req);
  }

  lemma {:induction false} CompletedByOnePunch(reqs: seq<Request>, i: nat) returns (k: nat)
    requires i < |PunchRun([], reqs)| && PunchRun([], reqs)[i].status == Completed
    ensures ClockedOutBy(reqs, k, i, PunchRun([], reqs)[i])
    decreases |reqs|
  {
    var n := |reqs| - 1;
    var before := PunchRun([], reqs[..n]);
    if i < |before| && PunchRun([], reqs)[i] == before[i] {
      k := CompletedByOnePunch(reqs[..n], i);
      assert reqs[..n][..k] == reqs[..k];
    } else {
      CompletingPunch(before, reqs[n], i);
      k := n;
    }
  }

  /** After every run of punches each record's schedule and breaks come from its shift and its punches. */
  lemma {:induction false} PunchRunFits(reqs: seq<Request>, i: nat)
    requires i < |PunchRun([], reqs)|
    ensures RecordFits(PunchRun([], reqs)[i])
    decreases |reqs|
  {
    var n := |reqs| - 1;
    var before, req := PunchRun([], reqs[..n]), reqs[n];
    if i < |before| {
      PunchRunFits(reqs[..n], i);
    }
    if Accepted(before, req) && i == TargetId(before, req) {
      PunchRunKeepsInv(reqs[..n]);
      TargetIsOk(before, req);
      NewRecordFits(req);
      PunchedFits(Target(before, req), req);
    }
  }

  /** What the invariant means for the people concerned. */
  lemma PunchRunGuarantees(reqs: seq<Request>, i: nat, j: nat, a: nat, b: nat)
    requires i < |PunchRun([], reqs)| && j < |PunchRun([], reqs)|
    ensures var rs := PunchRun([], reqs);
            && (exists n :: Kinds(rs[i].punches) <= FullShift(n))
            && (rs[i].status == Completed ==>
                  && rs[i].clockIn.Some? && rs[i].clockOut.Some? && rs[i].clockIn.value < rs[i].clockOut.value
                  && (exists k :: ClockedOutBy(reqs, k, i, rs[i]))
                  && exists n :: Kinds(rs[i].punches) == FullShift(n))
            && rs[i].minutes.breaks == ScheduledBreak(rs[i]) + ClosedBreakMinutes(rs[i].breaks)
            && (rs[i].employee == rs[j].employee && rs[i].status == Open && rs[j].status == Open ==> i == j)
            && (a < |rs[i].breaks| && rs[i].breaks[a].endedAt.None? ==>
                  && rs[i].status == Open && rs[i].clockIn.Some?
                  && (b < |rs[j].breaks| && rs[j].breaks[b].endedAt.None? && rs[i].employee == rs[j].employee ==> i == j && a == b))
  {
    PunchRunKeepsInv(reqs);
    var rs := PunchRun([], reqs);
    var ks := Kinds(rs[i].punches);
    assert RecordOk(rs[i]) && RecordOk(rs[j]);
    ValidRunIsPrefixOfShift(ks);
    if rs[i].status == Completed {
      var k := CompletedByOnePunch(reqs, i);
      var n :| ks <= FullShift(n);
      BreakPairsAt(n);
      assert ks[|ks| - 1] == FullShift(n)[|ks| - 1];
      assert ks == FullShift(n);
    }
  }
}
