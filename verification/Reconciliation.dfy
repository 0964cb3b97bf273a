/** Linking attendance records to the nearest shift of the published schedule. */
module Reconciliation {
  import opened Time
  import opened Wrappers
  import opened Metrics
  import opened Punches

  // ---------------------------------------------------------------- matching one record

  datatype Match = Match(shift: Shift, confidence: nat, startDelta: nat, endDelta: Option<nat>)

  function ActualStart(r: Record): Option<int> { if r.clockIn.Some? then r.clockIn else r.firstPunch }

  function ActualEnd(r: Record): Option<int> { if r.clockOut.Some? then r.clockOut else r.lastPunch }

  function StartDelta(r: Record, shift: Shift): nat {
    AbsoluteMinutes(ActualStart(r).GetOr(r.workDate), shift.startsAt)
  }

  function EndDelta(r: Record, shift: Shift): Option<nat> {
    if ActualEnd(r).Some? then Some(AbsoluteMinutes(ActualEnd(r).value, shift.endsAt)) else None
  }

  predicate Admissible(r: Record, shift: Shift) {
    var start, end := ActualStart(r), ActualEnd(r);
    || StartDelta(r, shift) <= 18 * 60
    || (start.Some? && end.Some?
        && shift.startsAt <= end.value + 6 * HOUR && shift.endsAt >= start.value - 6 * HOUR)
  }

  predicate SameWorkDate(r: Record, shift: Shift) { DayNumber(r.workDate) == DayNumber(shift.workDate) }

  predicate BothOvernight(r: Record, shift: Shift) {
    var start, end := ActualStart(r), ActualEnd(r);
    && DayNumber(shift.startsAt) != DayNumber(shift.endsAt)
    && start.Some? && end.Some? && DayNumber(start.value) != DayNumber(end.value)
  }

  /** The score in twelfths, so that the code's thirds and quarters are exact. */
  function Score(r: Record, shift: Shift): int {
    var endPenalty := if EndDelta(r, shift).None? then 8 * 12 else Min(35 * 12, 3 * EndDelta(r, shift).value);
    100 * 12 - Min(60 * 12, 4 * StartDelta(r, shift)) - endPenalty
    + (if SameWorkDate(r, shift) then 6 * 12 else 0) + (if BothOvernight(r, shift) then 8 * 12 else 0)
  }

  function Confidence(r: Record, shift: Shift): (c: nat)
    ensures 5 <= c <= 100
  {
    Max(0, Min(100, RoundDiv(Score(r, shift), 12)))
  }

  function Candidates(r: Record, shifts: seq<Shift>): seq<Match> {
    if shifts == [] then []
    else
      var shift := shifts[|shifts| - 1];
      Candidates(r, shifts[..|shifts| - 1])
      + (if Admissible(r, shift) then [Match(shift, Confidence(r, shift), StartDelta(r, shift), EndDelta(r, shift))] else [])
  }

  /** The comparator of the sort: `a` comes strictly before `b`. */
  predicate Better(a: Match, b: Match) {
    || a.confidence > b.confidence
    || (a.confidence == b.confidence
        && (a.startDelta < b.startDelta
            || (a.startDelta == b.startDelta && a.endDelta.GetOr(0) < b.endDelta.GetOr(0))))
  }

  /** The head of the stably sorted list. */
  function First(candidates: seq<Match>): (r: Option<Match>)
    ensures r.None? <==> candidates == []
  {
    if candidates == [] then None
    else
      var last := candidates[|candidates| - 1];
      var r := First(candidates[..|candidates| - 1]);
      if r.Some? && !Better(last, r.value) then r else Some(last)
  }

  function BestMatch(r: Record, shifts: seq<Shift>): Option<Match> { First(Candidates(r, shifts)) }

  lemma {:induction false} CandidatesAreAdmissible(r: Record, shifts: seq<Shift>, m: Match)
    ensures m in Candidates(r, shifts) <==>
              && m.shift in shifts && Admissible(r, m.shift)
              && m == Match(m.shift, Confidence(r, m.shift), StartDelta(r, m.shift), EndDelta(r, m.shift))
  {
    if shifts != [] {
      CandidatesAreAdmissible(r, shifts[..|shifts| - 1], m);
      assert m.shift in shifts <==> m.shift in shifts[..|shifts| - 1] || m.shift == shifts[|shifts| - 1];
    }
  }

  /** Candidate `k` is beaten by none, and beats all that were there before it. */
  ghost predicate Wins(candidates: seq<Match>, k: nat) {
    && k < |candidates|
    && (forall i | 0 <= i < |candidates| :: !Better(candidates[i], candidates[k]))
    && (forall i | 0 <= i < k :: Better(candidates[k], candidates[i]))
  }

  lemma LastWins(candidates: seq<Match>, last: Match, k: nat)
    requires Wins(candidates, k) && Better(last, candidates[k])
    ensures Wins(candidates + [last], |candidates|)
  {
    var all := candidates + [last];
    forall i | 0 <= i < |candidates|
      ensures Better(last, all[i]) && !Better(all[i], last)
    {
      assert all[i] == candidates[i] && !Better(candidates[i], candidates[k]);
    }
  }

  lemma WinnerStays(candidates: seq<Match>, last: Match, k: nat)
    requires Wins(candidates, k) && !Better(last, candidates[k])
    ensures Wins(candidates + [last], k)
  {
    var all := candidates + [last];
    assert forall i | 0 <= i < |candidates| :: all[i] == candidates[i];
  }

  lemma {:induction false} FirstIsBest(candidates: seq<Match>) returns (k: nat)
    requires candidates != []
    ensures Wins(candidates, k) && First(candidates) == Some(candidates[k])
  {
    var n := |candidates| - 1;
    assert candidates == candidates[..n] + [candidates[n]];
    if n == 0 {
      k := 0;
    } else {
      k := FirstIsBest(candidates[..n]);
      if Better(candidates[n], candidates[k]) {
        LastWins(candidates[..n], candidates[n], k);
        k := n;
      } else {
        WinnerStays(candidates[..n], candidates[n], k);
      }
    }
  }

  /** The match is an admissible shift, and no admissible shift ranks before it by confidence, then
      start distance, then end distance; there is none exactly when no shift is admissible. */
  lemma BestMatchIsBest(r: Record, shifts: seq<Shift>)
    ensures var best := BestMatch(r, shifts);
            && (best.None? <==> forall shift | shift in shifts :: !Admissible(r, shift))
            && (best.Some? ==>
                  && best.value.shift in shifts && Admissible(r, best.value.shift)
                  && 5 <= best.value.confidence <= 100
                  && best.value == Match(best.value.shift, Confidence(r, best.value.shift), StartDelta(r, best.value.shift), EndDelta(r, best.value.shift))
                  && forall shift | shift in shifts && Admissible(r, shift) ::
                       !Better(Match(shift, Confidence(r, shift), StartDelta(r, shift), EndDelta(r, shift)), best.value))
  {
    var all := Candidates(r, shifts);
    forall m: Match
      ensures m in all <==>
              && m.shift in shifts && Admissible(r, m.shift)
              && m == Match(m.shift, Confidence(r, m.shift), StartDelta(r, m.shift), EndDelta(r, m.shift))
    {
      CandidatesAreAdmissible(r, shifts, m);
    }
    forall shift | shift in shifts && Admissible(r, shift)
      ensures Match(shift, Confidence(r, shift), StartDelta(r, shift), EndDelta(r, shift)) in all
    {}
    if all != [] {
      var k := FirstIsBest(all);
      assert BestMatch(r, shifts) == Some(all[k]) && all[k] in all;
    }
  }

  /** A shift that is nearer at both ends, and shares at least as much, never scores lower. */
  lemma NearerScoresNoLower(r: Record, a: Shift, b: Shift)
    requires StartDelta(r, a) <= StartDelta(r, b)
    requires EndDelta(r, a).Some? ==> EndDelta(r, a).value <= EndDelta(r, b).value
    requires (SameWorkDate(r, b) ==> SameWorkDate(r, a)) && (BothOvernight(r, b) ==> BothOvernight(r, a))
    ensures Confidence(r, a) >= Confidence(r, b)
  {
    RoundDivMonotone(Score(r, b), Score(r, a), 12);
  }

  /** A shift worked exactly as planned is certain. */
  lemma ExactMatchIsCertain(r: Record, shift: Shift)
    requires ActualStart(r) == Some(shift.startsAt) && ActualEnd(r) == Some(shift.endsAt)
    ensures Admissible(r, shift) && Confidence(r, shift) == 100
  {
    RoundDivMonotone(1200, Score(r, shift), 12);
    RoundDivExact(100, 12);
  }

  /** What a shift loses: one point for each three minutes at the start, up to sixty, one for each four
      minutes at the end, up to thirty-five, or eight without an end; and what it gains: six on the same
      date, eight if both are overnight. */
  lemma PointsExactly(r: Record, shift: Shift)
    ensures var s := StartDelta(r, shift);
            var lost := if s <= 180 then 4 * s else 720;
            var end := if EndDelta(r, shift).None? then 96
                       else if EndDelta(r, shift).value <= 140 then 3 * EndDelta(r, shift).value else 420;
            var won := (if SameWorkDate(r, shift) then 72 else 0) + (if BothOvernight(r, shift) then 96 else 0);
            var points := 1200 - lost - end + won;
            && (points >= 1200 ==> Confidence(r, shift) == 100)
            && (points < 1200 ==> -12 <= 2 * (points - 12 * Confidence(r, shift)) < 12)
  {
    if Score(r, shift) >= 1200 {
      RoundDivMonotone(1200, Score(r, shift), 12);
      RoundDivExact(100, 12);
    } else {
      RoundDivMonotone(Score(r, shift), 1200, 12);
      RoundDivExact(100, 12);
    }
  }

  /** `delta` is a distance to the nearest minute, halves towards later instants, whichever comes first. */
  predicate MinutesApart(from: int, to: int, delta: nat) {
    if 2 * (to - from) >= -60_000 then -60_000 <= 2 * (to - from - 60_000 * delta) < 60_000
    else -60_000 <= 2 * (to - from + 60_000 * delta) < 60_000
  }

  /** What is compared: the clock-in, or else the first punch, or else the work date, with the shift's start;
      the clock-out, or else the last punch, with its end; and calendar days. */
  lemma DeltasExactly(r: Record, shift: Shift)
    ensures MinutesApart(shift.startsAt,
              if r.clockIn.Some? then r.clockIn.value else if r.firstPunch.Some? then r.firstPunch.value else r.workDate,
              StartDelta(r, shift))
    ensures EndDelta(r, shift).None? <==> r.clockOut.None? && r.lastPunch.None?
    ensures EndDelta(r, shift).Some? ==>
              MinutesApart(shift.endsAt, if r.clockOut.Some? then r.clockOut.value else r.lastPunch.value, EndDelta(r, shift).value)
    ensures SameWorkDate(r, shift) <==> r.workDate - r.workDate % 86_400_000 == shift.workDate - shift.workDate % 86_400_000
    ensures r.clockIn.Some? && r.clockOut.Some? ==>
              (BothOvernight(r, shift) <==>
                 && shift.startsAt - shift.startsAt % 86_400_000 != shift.endsAt - shift.endsAt % 86_400_000
                 && r.clockIn.value - r.clockIn.value % 86_400_000 != r.clockOut.value - r.clockOut.value % 86_400_000)
  {}

  /** A shift is a candidate if it starts within eighteen hours of the work, or comes within six hours of
      the worked time on either side. */
  lemma AdmissibleExactly(r: Record, shift: Shift)
    requires r.clockIn.Some? && r.clockOut.Some?
    ensures Admissible(r, shift) <==>
              || -2 * 1080 * 60_000 - 60_000 <= 2 * (r.clockIn.value - shift.startsAt) < 2 * 1080 * 60_000 + 60_000
              || (shift.startsAt - r.clockOut.value <= 21_600_000 && r.clockIn.value - shift.endsAt <= 21_600_000)
  {}

  // ---------------------------------------------------------------- a whole run

  datatype Query = Query(from: int, to: int, employee: Option<EmployeeId>, limit: nat)

  datatype Action = Unmatched | AlreadyMatched | Matched | LowConfidence

  predicate InQuery(r: Record, q: Query) {
    q.from <= r.workDate <= q.to && r.status != Voided && (q.employee.Some? ==> r.employee == q.employee.value)
  }

  /** The order of the query: work date, clock-in with nulls last, creation. */
  predicate OrderedBefore(records: seq<Record>, i: nat, j: nat)
    requires i < |records| && j < |records|
  {
    var a, b := records[i], records[j];
    || a.workDate < b.workDate
    || (a.workDate == b.workDate
        && (|| (a.clockIn.Some? && (b.clockIn.None? || a.clockIn.value < b.clockIn.value))
            || (a.clockIn == b.clockIn && i < j)))
  }

  /** Ids of stored records. */
  predicate Stored(records: seq<Record>, ids: seq<nat>) { forall k | 0 <= k < |ids| :: ids[k] < |records| }

  function Insert(records: seq<Record>, ids: seq<nat>, i: nat): seq<nat>
    requires i < |records| && Stored(records, ids)
  {
    if ids == [] || OrderedBefore(records, i, ids[0]) then [i] + ids
    else [ids[0]] + Insert(records, ids[1..], i)
  }

  lemma {:induction false} InsertMembers(records: seq<Record>, ids: seq<nat>, i: nat, x: nat)
    requires i < |records| && Stored(records, ids)
    ensures x in Insert(records, ids, i) <==> x in ids || x == i
    decreases |ids|
  {
    if ids != [] && !OrderedBefore(records, i, ids[0]) {
      InsertMembers(records, ids[1..], i, x);
      assert x in ids <==> x == ids[0] || x in ids[1..];
    }
  }

  /** Ids below `n` of records in the query's scope. */
  predicate InScope(records: seq<Record>, q: Query, n: nat, ids: seq<nat>)
    requires n <= |records|
  {
    forall k | 0 <= k < |ids| :: ids[k] < n && InQuery(records[ids[k]], q)
  }

  lemma InsertKeepsScope(records: seq<Record>, q: Query, n: nat, ids: seq<nat>)
    requires n < |records| && InScope(records, q, n, ids) && InQuery(records[n], q)
    ensures Stored(records, ids) && InScope(records, q, n + 1, Insert(records, ids, n))
  {
    var r := Insert(records, ids, n);
    forall k | 0 <= k < |r|
      ensures r[k] < n + 1 && InQuery(records[r[k]], q)
    {
      InsertMembers(records, ids, n, r[k]);
    }
  }

  function Found(records: seq<Record>, q: Query, n: nat): (r: seq<nat>)
    requires n <= |records|
    ensures InScope(records, q, n, r)
  {
    if n == 0 then []
    else
      var ids := Found(records, q, n - 1);
      if InQuery(records[n - 1], q) then
        InsertKeepsScope(records, q, n - 1, ids);
        Insert(records, ids, n - 1)
      else ids
  }

  /** The ids of the records a run looks at. */
  function Selected(records: seq<Record>, q: Query): (r: seq<nat>)
    ensures forall k | 0 <= k < |r| :: r[k] < |records| && InQuery(records[r[k]], q)
  {
    var found := Found(records, q, |records|);
    if q.limit < |found| then found[..q.limit] else found
  }

  ghost predicate InOrder(records: seq<Record>, ids: seq<nat>) {
    && Stored(records, ids)
    && forall j, k | 0 <= j < k < |ids| :: OrderedBefore(records, ids[j], ids[k])
  }

  lemma {:induction false} InsertKeepsOrder(records: seq<Record>, ids: seq<nat>, i: nat)
    requires i < |records| && InOrder(records, ids) && i !in ids
    ensures InOrder(records, Insert(records, ids, i))
    decreases |ids|
  {
    if ids == [] {
      assert Insert(records, ids, i) == [i];
    } else if OrderedBefore(records, i, ids[0]) {
      FirstIsBeforeAll(records, ids, i);
    } else {
      var rest := Insert(records, ids[1..], i);
      InsertKeepsOrder(records, ids[1..], i);
      forall k | 0 <= k < |rest|
        ensures OrderedBefore(records, ids[0], rest[k])
      {
        InsertMembers(records, ids[1..], i, rest[k]);
      }
    }
  }

  lemma FirstIsBeforeAll(records: seq<Record>, ids: seq<nat>, i: nat)
    requires i < |records| && InOrder(records, ids) && ids != [] && OrderedBefore(records, i, ids[0])
    ensures InOrder(records, [i] + ids)
  {
    var r := [i] + ids;
    forall j, k | 0 <= j < k < |r|
      ensures OrderedBefore(records, r[j], r[k])
    {
      if j == 0 && k > 1 {
        assert OrderedBefore(records, ids[0], ids[k - 1]);
      }
    }
  }

  lemma FoundStep(records: seq<Record>, q: Query, n: nat)
    requires n < |records|
    ensures Stored(records, Found(records, q, n)) && n !in Found(records, q, n)
    ensures Found(records, q, n + 1)
         == if InQuery(records[n], q) then Insert(records, Found(records, q, n), n) else Found(records, q, n)
  {}

  lemma NextInOrder(records: seq<Record>, q: Query, n: nat)
    requires n < |records| && InOrder(records, Found(records, q, n))
    ensures InOrder(records, Found(records, q, n + 1))
  {
    FoundStep(records, q, n);
    if InQuery(records[n], q) {
      InsertKeepsOrder(records, Found(records, q, n), n);
    }
  }

  /** The query finds exactly the records in scope, in order; a limit keeps the first of them. */
  lemma {:induction false} FoundInOrder(records: seq<Record>, q: Query, n: nat)
    requires n <= |records|
    ensures InOrder(records, Found(records, q, n))
    decreases n
  {
    if n == 0 {
      assert Found(records, q, n) == [];
    } else {
      FoundInOrder(records, q, n - 1);
      NextInOrder(records, q, n - 1);
    }
  }

  lemma {:induction false} FoundIsComplete(records: seq<Record>, q: Query, n: nat, k: nat)
    requires k < n <= |records| && InQuery(records[k], q)
    ensures k in Found(records, q, n)
    decreases n
  {
    FoundStep(records, q, n - 1);
    if k < n - 1 {
      FoundIsComplete(records, q, n - 1, k);
    }
    if InQuery(records[n - 1], q) {
      InsertMembers(records, Found(records, q, n - 1), n - 1, k);
    }
  }

  function ShiftsOf(shifts: seq<Shift>, e: EmployeeId): seq<Shift> {
    if shifts == [] then []
    else ShiftsOf(shifts[..|shifts| - 1], e)
         + (if shifts[|shifts| - 1].employee == e then [shifts[|shifts| - 1]] else [])
  }

  lemma {:induction false} ShiftsOfExactly(shifts: seq<Shift>, e: EmployeeId, shift: Shift)
    ensures shift in ShiftsOf(shifts, e) <==> shift in shifts && shift.employee == e
  {
    if shifts != [] {
      ShiftsOfExactly(shifts[..|shifts| - 1], e, shift);
      assert shift in shifts <==> shift in shifts[..|shifts| - 1] || shift == shifts[|shifts| - 1];
    }
  }

  /** The match of a record is a published shift of the same employee. */
  lemma MatchIsOwnShift(r: Record, shifts: seq<Shift>)
    ensures MatchOf(r, shifts).Some? ==>
              && MatchOf(r, shifts).value.shift in shifts && MatchOf(r, shifts).value.shift.employee == r.employee
    ensures MatchOf(r, shifts).None? ==> forall shift | shift in shifts && shift.employee == r.employee :: !Admissible(r, shift)
  {
    BestMatchIsBest(r, ShiftsOf(shifts, r.employee));
    forall shift
      ensures shift in ShiftsOf(shifts, r.employee) <==> shift in shifts && shift.employee == r.employee
    {
      ShiftsOfExactly(shifts, r.employee, shift);
    }
  }

  /** Unless the limit cuts it off, a run looks at exactly the records dated in the range that are not voided
      and belong to the employee asked for, if one is. */
  lemma SelectedExactly(records: seq<Record>, q: Query, i: nat)
    requires i < |records| && |Found(records, q, |records|)| <= q.limit
    ensures i in Selected(records, q) <==>
              && q.from <= records[i].workDate <= q.to && records[i].status != Voided
              && (q.employee.Some? ==> q.employee.value == records[i].employee)
  {
    if InQuery(records[i], q) {
      FoundIsComplete(records, q, |records|, i);
    }
  }

  /** A limit keeps the first records of the order. */
  lemma LimitKeepsFirst(records: seq<Record>, q: Query)
    ensures Selected(records, q) <= Found(records, q, |records|)
    ensures |Selected(records, q)| == if q.limit < |Found(records, q, |records|)| then q.limit else |Found(records, q, |records|)|
  {}

  /** The run looks at live shifts that start at most eighteen hours outside its range. */
  predicate StartsNear(shift: Shift, q: Query) { q.from - 18 * HOUR <= shift.startsAt <= q.to + 18 * HOUR }

  function InsertByStart(found: seq<Shift>, shift: Shift): seq<Shift> {
    if found == [] || shift.startsAt < found[0].startsAt then [shift] + found
    else [found[0]] + InsertByStart(found[1..], shift)
  }

  /** The shifts a run looks at, by start. */
  function Published(shifts: seq<Shift>, q: Query): seq<Shift> {
    if shifts == [] then []
    else
      var n := |shifts| - 1;
      var found := Published(shifts[..n], q);
      if StartsNear(shifts[n], q) then InsertByStart(found, shifts[n]) else found
  }

  lemma {:induction false} InsertedMembers(found: seq<Shift>, shift: Shift, x: Shift)
    ensures x in InsertByStart(found, shift) <==> x in found || x == shift
    decreases |found|
  {
    if found != [] && shift.startsAt >= found[0].startsAt {
      InsertedMembers(found[1..], shift, x);
      assert x in found <==> x == found[0] || x in found[1..];
    }
  }

  lemma {:induction false} PublishedExactly(shifts: seq<Shift>, q: Query, shift: Shift)
    ensures shift in Published(shifts, q)
       <==> shift in shifts && q.from - 64_800_000 <= shift.startsAt <= q.to + 64_800_000
  {
    if shifts != [] {
      var n := |shifts| - 1;
      PublishedExactly(shifts[..n], q, shift);
      InsertedMembers(Published(shifts[..n], q), shifts[n], shift);
      assert shift in shifts <==> shift in shifts[..n] || shift == shifts[n];
    }
  }

  ghost predicate ByStart(shifts: seq<Shift>) {
    forall j, k | 0 <= j < k < |shifts| :: shifts[j].startsAt <= shifts[k].startsAt
  }

  lemma {:induction false} InsertKeepsStarts(found: seq<Shift>, shift: Shift)
    requires ByStart(found)
    ensures ByStart(InsertByStart(found, shift))
    decreases |found|
  {
    if found != [] && shift.startsAt >= found[0].startsAt {
      var rest := InsertByStart(found[1..], shift);
      InsertKeepsStarts(found[1..], shift);
      forall k | 0 <= k < |rest|
        ensures found[0].startsAt <= rest[k].startsAt
      {
        InsertedMembers(found[1..], shift, rest[k]);
      }
    }
  }

  lemma {:induction false} PublishedInOrder(shifts: seq<Shift>, q: Query)
    ensures ByStart(Published(shifts, q))
  {
    if shifts != [] {
      var n := |shifts| - 1;
      PublishedInOrder(shifts[..n], q);
      InsertKeepsStarts(Published(shifts[..n], q), shifts[n]);
    }
  }

  lemma {:induction false} OwnShiftsInOrder(shifts: seq<Shift>, e: EmployeeId)
    requires ByStart(shifts)
    ensures ByStart(ShiftsOf(shifts, e))
  {
    if shifts != [] {
      var n := |shifts| - 1;
      OwnShiftsInOrder(shifts[..n], e);
      forall k | 0 <= k < |ShiftsOf(shifts[..n], e)|
        ensures ShiftsOf(shifts[..n], e)[k].startsAt <= shifts[n].startsAt
      {
        ShiftsOfExactly(shifts[..n], e, ShiftsOf(shifts[..n], e)[k]);
      }
    }
  }

  ghost predicate CandidatesByStart(candidates: seq<Match>) {
    forall j, k | 0 <= j < k < |candidates| :: candidates[j].shift.startsAt <= candidates[k].shift.startsAt
  }

  lemma {:induction false} CandidatesInOrder(r: Record, shifts: seq<Shift>)
    requires ByStart(shifts)
    ensures CandidatesByStart(Candidates(r, shifts))
  {
    if shifts != [] {
      var n := |shifts| - 1;
      CandidatesInOrder(r, shifts[..n]);
      forall k | 0 <= k < |Candidates(r, shifts[..n])|
        ensures Candidates(r, shifts[..n])[k].shift.startsAt <= shifts[n].startsAt
      {
        CandidatesAreAdmissible(r, shifts[..n], Candidates(r, shifts[..n])[k]);
      }
    }
  }

  /** Of equally good shifts the one that starts first is matched. */
  lemma TieGoesToEarlier(r: Record, all: seq<Shift>, q: Query, shift: Shift)
    requires MatchOf(r, Published(all, q)).Some?
    requires shift in Published(all, q) && shift.employee == r.employee && Admissible(r, shift)
    requires !Better(MatchOf(r, Published(all, q)).value, Match(shift, Confidence(r, shift), StartDelta(r, shift), EndDelta(r, shift)))
    ensures MatchOf(r, Published(all, q)).value.shift.startsAt <= shift.startsAt
  {
    var own := ShiftsOf(Published(all, q), r.employee);
    var m := Match(shift, Confidence(r, shift), StartDelta(r, shift), EndDelta(r, shift));
    PublishedInOrder(all, q);
    OwnShiftsInOrder(Published(all, q), r.employee);
    CandidatesInOrder(r, own);
    ShiftsOfExactly(Published(all, q), r.employee, shift);
    CandidatesAreAdmissible(r, own, m);
    var k := FirstIsBest(Candidates(r, own));
    var i :| 0 <= i < |Candidates(r, own)| && Candidates(r, own)[i] == m;
  }

  function MatchOf(r: Record, shifts: seq<Shift>): Option<Match> { BestMatch(r, ShiftsOf(shifts, r.employee)) }

  function ActionFor(r: Record, shifts: seq<Shift>): Action {
    var m := MatchOf(r, shifts);
    if m.None? then Unmatched
    else if r.shift.Some? && r.shift.value.id == m.value.shift.id then AlreadyMatched
    else if m.value.confidence >= 45 then Matched
    else LowConfidence
  }

  function Link(r: Record, shift: Shift): Record {
    var m := CalculateMetrics(r.policy, Some(shift), None, None, r.clockIn, r.clockOut, r.minutes.breaks);
    r.(shift := Some(shift), scheduledStart := Some(shift.startsAt), scheduledEnd := Some(shift.endsAt),
       minutes := m.(breaks := r.minutes.breaks))
  }

  /** Only a shift other than the one already linked is matched, and only with at least 45 points. */
  lemma ActionExactly(r: Record, shifts: seq<Shift>)
    ensures var m, action := MatchOf(r, shifts), ActionFor(r, shifts);
            && (action == Unmatched <==> m.None?)
            && (action == AlreadyMatched <==> m.Some? && r.shift.Some? && r.shift.value.id == m.value.shift.id)
            && (m.Some? && action != AlreadyMatched ==> (action == Matched <==> m.value.confidence >= 45))
  {}

  /** A linked record takes over the schedule of its shift; its worked and break time stay, and the rest is
      computed for the shift by the record's policy. */
  lemma LinkColumns(r: Record, shift: Shift)
    requires r.clockIn.Some? && r.clockOut.Some?
    ensures var l := Link(r, shift);
            && l.shift == Some(shift) && l.scheduledStart == Some(shift.startsAt) && l.scheduledEnd == Some(shift.endsAt)
            && MinutesBeyond(shift.endsAt - shift.startsAt, shift.breakMinutes, l.minutes.scheduled)
            && l.minutes.breaks == r.minutes.breaks
            && MinutesBeyond(r.clockOut.value - r.clockIn.value, 0, l.minutes.actual)
            && PaidFor(if l.minutes.actual > l.minutes.breaks then l.minutes.actual - l.minutes.breaks else 0, r.policy,
                       if r.policy.dailyOvertime.Some? then r.policy.dailyOvertime.value else l.minutes.scheduled,
                       l.minutes.payable, l.minutes.overtime)
            && MinutesBeyond(r.clockIn.value - shift.startsAt, r.policy.graceLate, l.minutes.late)
            && MinutesBeyond(shift.endsAt - r.clockOut.value, r.policy.graceEarlyLeave, l.minutes.earlyLeave)
            && l.clockIn == r.clockIn && l.clockOut == r.clockOut && l.workDate == r.workDate && l.status == r.status
  {
    MetricsColumns(r.policy, Some(shift), None, None, r.clockIn, r.clockOut, r.minutes.breaks);
  }

  /** Whoever has no clock-out yet is linked without minutes. */
  lemma LinkWithoutEnd(r: Record, shift: Shift)
    requires r.clockIn.None? || r.clockOut.None?
    ensures Link(r, shift).minutes.actual == Link(r, shift).minutes.payable == Link(r, shift).minutes.overtime == 0
    ensures Link(r, shift).minutes.breaks == r.minutes.breaks
  {
    MetricsAreConsistent(r.policy, Some(shift), None, None, r.clockIn, r.clockOut, r.minutes.breaks);
  }

  function Reconciled(r: Record, shifts: seq<Shift>): Record {
    if ActionFor(r, shifts) == Matched then Link(r, MatchOf(r, shifts).value.shift) else r
  }

  /** The table after a run that is not a dry run. */
  function ReconcileTable(records: seq<Record>, q: Query, shifts: seq<Shift>): seq<Record> {
    seq(|records|, i requires 0 <= i < |records| =>
      if i in Selected(records, q) then Reconciled(records[i], Published(shifts, q)) else records[i])
  }

  function CountAction(actions: seq<Action>, a: Action): nat {
    if actions == [] then 0
    else CountAction(actions[..|actions| - 1], a) + (if actions[|actions| - 1] == a then 1 else 0)
  }

  /** The actions of a run, record by record. */
  function Actions(records: seq<Record>, q: Query, shifts: seq<Shift>): (actions: seq<Action>)
    ensures |actions| == |Selected(records, q)|
  {
    var ids := Selected(records, q);
    seq(|ids|, k requires 0 <= k < |ids| => ActionFor(records[ids[k]], Published(shifts, q)))
  }

  datatype Summary = Summary(evaluated: nat, matched: nat, alreadyMatched: nat, lowConfidence: nat, unmatched: nat, applied: nat)

  /** The loop of the transaction: one row after the other. `goal` is the row each selected id is to hold
      afterwards, linked or as it was. */
  method WriteLinks(store: AttendanceStore, ids: seq<nat>, actions: seq<Action>, linked: seq<Record>, ghost goal: seq<Record>)
    returns (applied: nat)
    requires |actions| == |linked| == |ids| && |goal| == |store.records|
    requires forall k | 0 <= k < |ids| :: ids[k] < |store.records|
    requires forall k | 0 <= k < |ids| :: goal[ids[k]] == if actions[k] == Matched then linked[k] else store.records[ids[k]]
    modifies store
    ensures |store.records| == |goal|
    ensures forall i: nat | i < |goal| :: store.records[i] == if i in ids then goal[i] else old(store.records)[i]
    ensures applied == CountAction(actions, Matched)
  {
    var before := store.records;
    applied := 0;
    for n := 0 to |ids|
      invariant |store.records| == |before|
      invariant forall i: nat | i < |before| :: store.records[i] == before[i] || (i in ids && store.records[i] == goal[i])
      invariant forall k | 0 <= k < n :: store.records[ids[k]] == goal[ids[k]]
      invariant applied == CountAction(actions[..n], Matched)
    {
      assert actions[..n + 1][..n] == actions[..n];
      if actions[n] == Matched {
        store.records := store.records[ids[n] := linked[n]];
        applied := applied + 1;
      }
    }
    assert actions[..|ids|] == actions;
  }

  lemma ReconciledByAction(r: Record, shifts: seq<Shift>)
    ensures ActionFor(r, shifts) == Matched ==> MatchOf(r, shifts).Some?
    ensures Reconciled(r, shifts)
         == if ActionFor(r, shifts) == Matched then Link(r, MatchOf(r, shifts).value.shift) else r
  {}

  /** Every record whose action is a match is linked to its best shift. */
  method ApplyMatches(store: AttendanceStore, ids: seq<nat>, actions: seq<Action>, shifts: seq<Shift>) returns (applied: nat)
    requires forall k | 0 <= k < |ids| :: ids[k] < |store.records|
    requires |actions| == |ids| && forall k | 0 <= k < |ids| :: actions[k] == ActionFor(store.records[ids[k]], shifts)
    modifies store
    ensures |store.records| == |old(store.records)|
    ensures forall i: nat | i < |store.records| ::
              store.records[i] == if i in ids then Reconciled(old(store.records)[i], shifts) else old(store.records)[i]
    ensures applied == CountAction(actions, Matched)
  {
    var before := store.records;
    ghost var goal := seq(|before|, i requires 0 <= i < |before| => Reconciled(before[i], shifts));
    var linked := seq(|ids|, k requires 0 <= k < |ids| => Reconciled(before[ids[k]], shifts));
    forall k | 0 <= k < |ids| && actions[k] != Matched
      ensures goal[ids[k]] == before[ids[k]]
    {
      ReconciledByAction(before[ids[k]], shifts);
    }
    applied := WriteLinks(store, ids, actions, linked, goal);
  }

  method RunReconciliation(store: AttendanceStore, q: Query, shifts: seq<Shift>, dryRun: bool) returns (s: Summary)
    modifies store
    ensures store.records == if dryRun then old(store.records) else ReconcileTable(old(store.records), q, shifts)
    ensures var actions := Actions(old(store.records), q, shifts);
            && s.evaluated == |Selected(old(store.records), q)|
            && s.matched == CountAction(actions, Matched) && s.alreadyMatched == CountAction(actions, AlreadyMatched)
            && s.lowConfidence == CountAction(actions, LowConfidence) && s.unmatched == CountAction(actions, Unmatched)
    ensures s.matched + s.alreadyMatched + s.lowConfidence + s.unmatched == s.evaluated
    ensures s.applied == if dryRun then 0 else s.matched
  {
    var ids := Selected(store.records, q);
    var actions := Actions(store.records, q, shifts);
    var applied := 0;
    if !dryRun {
      applied := ApplyMatches(store, ids, actions, Published(shifts, q));
    }
    ActionsPartition(actions);
    s := Summary(|ids|, CountAction(actions, Matched), CountAction(actions, AlreadyMatched),
                 CountAction(actions, LowConfidence), CountAction(actions, Unmatched), applied);
  }

  lemma {:induction false} ActionsPartition(actions: seq<Action>)
    ensures CountAction(actions, Matched) + CountAction(actions, AlreadyMatched)
            + CountAction(actions, LowConfidence) + CountAction(actions, Unmatched) == |actions|
  {
    if actions != [] {
      ActionsPartition(actions[..|actions| - 1]);
    }
  }

  lemma {:induction false} NotCounted(actions: seq<Action>, a: Action)
    requires a !in actions
    ensures CountAction(actions, a) == 0
  {
    if actions != [] {
      NotCounted(actions[..|actions| - 1], a);
    }
  }

  // ---------------------------------------------------------------- a second run finds nothing to do

  /** Everything the query and the matcher look at. */
  predicate SameKeys(a: Record, b: Record) {
    && a.employee == b.employee && a.workDate == b.workDate && a.status == b.status
    && a.clockIn == b.clockIn && a.clockOut == b.clockOut && a.firstPunch == b.firstPunch && a.lastPunch == b.lastPunch
  }

  lemma SameScore(a: Record, b: Record, shift: Shift)
    requires SameKeys(a, b)
    ensures Admissible(a, shift) == Admissible(b, shift) && Confidence(a, shift) == Confidence(b, shift)
    ensures StartDelta(a, shift) == StartDelta(b, shift) && EndDelta(a, shift) == EndDelta(b, shift)
  {}

  lemma {:induction false} SameCandidates(a: Record, b: Record, shifts: seq<Shift>)
    requires SameKeys(a, b)
    ensures Candidates(a, shifts) == Candidates(b, shifts)
  {
    if shifts != [] {
      SameCandidates(a, b, shifts[..|shifts| - 1]);
      SameScore(a, b, shifts[|shifts| - 1]);
    }
  }

  ghost predicate AllSameKeys(a: seq<Record>, b: seq<Record>) {
    |a| == |b| && forall k | 0 <= k < |a| :: SameKeys(a[k], b[k])
  }

  lemma SameOrder(a: seq<Record>, b: seq<Record>, i: nat, j: nat)
    requires AllSameKeys(a, b) && i < |a| && j < |a|
    ensures OrderedBefore(a, i, j) == OrderedBefore(b, i, j)
  {
    assert SameKeys(a[i], b[i]) && SameKeys(a[j], b[j]);
  }

  lemma {:induction false} SameInsert(a: seq<Record>, b: seq<Record>, ids: seq<nat>, i: nat)
    requires AllSameKeys(a, b) && i < |a| && Stored(a, ids)
    ensures Insert(a, ids, i) == Insert(b, ids, i)
    decreases |ids|
  {
    if ids != [] {
      SameOrder(a, b, i, ids[0]);
      SameInsert(a, b, ids[1..], i);
    }
  }

  lemma SameFoundStep(a: seq<Record>, b: seq<Record>, q: Query, n: nat, ids: seq<nat>)
    requires AllSameKeys(a, b) && n < |a| && ids == Found(a, q, n) == Found(b, q, n)
    ensures Found(a, q, n + 1) == Found(b, q, n + 1)
  {
    FoundStep(a, q, n);
    FoundStep(b, q, n);
    SameInsert(a, b, ids, n);
    assert SameKeys(a[n], b[n]);
  }

  lemma {:induction false} SameFound(a: seq<Record>, b: seq<Record>, q: Query, n: nat)
    requires AllSameKeys(a, b) && n <= |a|
    ensures Found(a, q, n) == Found(b, q, n)
    decreases n
  {
    if n == 0 {
      assert Found(a, q, 0) == [] == Found(b, q, 0);
    } else {
      SameFound(a, b, q, n - 1);
      SameFoundStep(a, b, q, n - 1, Found(a, q, n - 1));
    }
  }

  lemma ReconciledIsStable(r: Record, shifts: seq<Shift>)
    ensures SameKeys(r, Reconciled(r, shifts))
    ensures ActionFor(Reconciled(r, shifts), shifts) != Matched
    ensures MatchOf(Reconciled(r, shifts), shifts) == MatchOf(r, shifts)
  {
    SameCandidates(r, Reconciled(r, shifts), ShiftsOf(shifts, r.employee));
  }

  /** Running again over the same period, limit and schedule selects the same records, matches none of
      them anew and leaves the table as it is. */
  lemma SecondRunAppliesNothing(records: seq<Record>, q: Query, shifts: seq<Shift>)
    ensures var once := ReconcileTable(records, q, shifts);
            && Selected(once, q) == Selected(records, q)
            && (forall i | i in Selected(once, q) :: ActionFor(once[i], Published(shifts, q)) != Matched)
            && ReconcileTable(once, q, shifts) == once
            && CountAction(Actions(once, q, shifts), Matched) == 0
  {
    var once := ReconcileTable(records, q, shifts);
    forall i | 0 <= i < |records|
      ensures SameKeys(records[i], once[i])
      ensures i in Selected(records, q) ==> ActionFor(once[i], Published(shifts, q)) != Matched
    {
      ReconciledIsStable(records[i], Published(shifts, q));
    }
    SameFound(records, once, q, |records|);
    NotCounted(Actions(once, q, shifts), Matched);
  }

  /** A run writes only the links: times, breaks, punches, status and employee of every record stay, and
      overtime stays a part of payable. */
  lemma ReconcileKeepsWork(records: seq<Record>, q: Query, shifts: seq<Shift>)
    requires forall i | 0 <= i < |records| :: records[i].minutes.overtime <= records[i].minutes.payable
    ensures var after := ReconcileTable(records, q, shifts);
            && |after| == |records|
            && forall i | 0 <= i < |records| ::
                 && SameKeys(records[i], after[i])
                 && after[i].breaks == records[i].breaks && after[i].punches == records[i].punches
                 && after[i].minutes.breaks == records[i].minutes.breaks
                 && after[i].minutes.overtime <= after[i].minutes.payable
  {
    var after, found := ReconcileTable(records, q, shifts), Published(shifts, q);
    forall i | 0 <= i < |records|
      ensures SameKeys(records[i], after[i])
      ensures after[i].breaks == records[i].breaks && after[i].punches == records[i].punches
      ensures after[i].minutes.breaks == records[i].minutes.breaks
      ensures after[i].minutes.overtime <= after[i].minutes.payable
    {
      var r := records[i];
      if ActionFor(r, found) == Matched {
        MetricsAreConsistent(r.policy, Some(MatchOf(r, found).value.shift), None, None, r.clockIn, r.clockOut, r.minutes.breaks);
      }
    }
  }
}
