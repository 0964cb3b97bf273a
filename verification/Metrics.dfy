/** The attendance tables' row types and the time arithmetic every written record goes through. */
module Metrics {
  import opened Time
  import opened Wrappers

  type EmployeeId = nat

  datatype Policy = Policy(
    graceLate: nat,
    graceEarlyLeave: nat,
    rounding: Option<nat>,
    dailyOvertime: Option<nat>,
    maxShift: nat,
    allowOfflineSync: bool,
    offlineGrace: nat)

  /** A row of the published schedule. */
  datatype Shift = Shift(id: nat, employee: EmployeeId, workDate: int, startsAt: int, endsAt: int, breakMinutes: nat)

  /** The computed minute columns of an attendance record. */
  datatype Minutes = Minutes(
    scheduled: nat, actual: nat, breaks: nat, payable: nat, overtime: nat, late: nat, earlyLeave: nat)

  function DurationMinutes(startsAt: int, endsAt: int, breakMinutes: int): nat {
    Max(0, RoundDiv(endsAt - startsAt, MINUTE) - breakMinutes)
  }

  function AbsoluteMinutes(left: int, right: int): nat {
    Abs(RoundDiv(left - right, MINUTE))
  }

  function RoundMinutes(minutes: nat, increment: Option<nat>): nat {
    if increment.None? || increment.value <= 1 then minutes
    else
      RoundedIsNatural(minutes, increment.value);
      RoundDiv(minutes, increment.value) * increment.value
  }

  lemma RoundedIsNatural(minutes: nat, increment: nat)
    requires increment > 1
    ensures RoundDiv(minutes, increment) * increment >= 0
  {}

  function CalculateMetrics(policy: Policy, shift: Option<Shift>,
                            scheduledStart: Option<int>, scheduledEnd: Option<int>,
                            clockIn: Option<int>, clockOut: Option<int>, breakMinutes: int): Minutes
  {
    var start := if shift.Some? then Some(shift.value.startsAt) else scheduledStart;
    var end := if shift.Some? then Some(shift.value.endsAt) else scheduledEnd;
    var scheduledBreak := if shift.Some? then shift.value.breakMinutes else breakMinutes;
    var scheduled :=
      if start.Some? && end.Some? then DurationMinutes(start.value, end.value, scheduledBreak) else 0;
    var actual :=
      if clockIn.Some? && clockOut.Some? then DurationMinutes(clockIn.value, clockOut.value, 0) else 0;
    var breaks := Max(0, breakMinutes);
    var payable := RoundMinutes(Max(0, actual - breaks), policy.rounding);
    var threshold := policy.dailyOvertime.GetOr(scheduled);
    var overtime := if threshold > 0 then Max(0, payable - threshold) else 0;
    var late :=
      if start.Some? && clockIn.Some?
      then Max(0, DurationMinutes(start.value, clockIn.value, 0) - policy.graceLate) else 0;
    var earlyLeave :=
      if end.Some? && clockOut.Some?
      then Max(0, DurationMinutes(clockOut.value, end.value, 0) - policy.graceEarlyLeave) else 0;
    Minutes(scheduled, actual, breaks, payable, overtime, late, earlyLeave)
  }

  // ---------------------------------------------------------------- rounding

  /** A rounded amount is a multiple of the increment, within half an increment of the input. */
  lemma RoundMinutesNearest(m: nat, increment: Option<nat>)
    ensures var inc := increment.GetOr(1);
            var r := RoundMinutes(m, increment);
            && (inc > 1 ==> r % inc == 0 && 2 * Abs(r - m) <= inc)
            && (inc <= 1 ==> r == m)
  {
    if increment.Some? && increment.value > 1 {
      MultipleMod(RoundDiv(m, increment.value), increment.value);
      assert RoundMinutes(m, increment) == increment.value * RoundDiv(m, increment.value);
    }
  }

  lemma MultipleMod(k: nat, d: nat)
    requires d > 0
    ensures (k * d) % d == 0 && (k * d) / d == k
  {
    var q, r := (k * d) / d, (k * d) % d;
    assert k * d == d * k && d * k == d * q + r;
    if q < k {
      MulGap(d, q, k);
      assert false;
    } else if k < q {
      MulGap(d, k, q);
      assert false;
    }
  }

  lemma RoundMinutesMonotone(m: nat, m': nat, increment: Option<nat>)
    requires m <= m'
    ensures RoundMinutes(m, increment) <= RoundMinutes(m', increment)
  {
    if increment.Some? && increment.value > 1 {
      RoundDivMonotone(m, m', increment.value);
      var q, q' := RoundDiv(m, increment.value), RoundDiv(m', increment.value);
      if q < q' {
        MulGap(increment.value, q, q');
      }
    }
  }

  lemma RoundsToNeighbour(q: nat, rem: nat, inc: nat)
    requires rem < inc
    ensures RoundDiv(inc * q + rem, inc) == if 2 * rem >= inc then q + 1 else q
  {
    var r := RoundDiv(inc * q + rem, inc);
    var expected := if 2 * rem >= inc then q + 1 else q;
    assert inc * (q + 1) == inc * q + inc;
    if r < expected {
      MulGap(inc, r, expected);
      assert false;
    } else if expected < r {
      MulGap(inc, expected, r);
      assert false;
    }
  }

  /** Rounding pays more than the time worked exactly when the remainder reaches half an increment. */
  lemma RoundingUpExactly(m: nat, inc: nat)
    requires inc > 1
    ensures RoundMinutes(m, Some(inc)) > m <==> 2 * (m % inc) >= inc
    ensures RoundMinutes(m, Some(inc)) < m <==> 0 < 2 * (m % inc) < inc
  {
    var q, rem := m / inc, m % inc;
    assert m == inc * q + rem;
    RoundsToNeighbour(q, rem, inc);
    assert (q + 1) * inc == inc * q + inc;
  }

  // ---------------------------------------------------------------- records

  /** What payroll relies on in every written record: overtime is a part of the payable time, which is
      the worked time less breaks to the nearest increment. */
  lemma MetricsAreConsistent(policy: Policy, shift: Option<Shift>, start: Option<int>, end: Option<int>,
                             clockIn: Option<int>, clockOut: Option<int>, breakMinutes: int)
    ensures var m := CalculateMetrics(policy, shift, start, end, clockIn, clockOut, breakMinutes);
            var inc := policy.rounding.GetOr(1);
            && m.overtime <= m.payable
            && (inc > 1 ==> m.payable % inc == 0)
            && 2 * Abs(m.payable - Max(0, m.actual - m.breaks)) <= (if inc > 1 then inc else 0)
            && (clockIn.None? || clockOut.None? ==> m.actual == 0 && m.payable == 0)
  {
    var m := CalculateMetrics(policy, shift, start, end, clockIn, clockOut, breakMinutes);
    RoundMinutesNearest(Max(0, m.actual - m.breaks), policy.rounding);
    if policy.rounding.Some? && policy.rounding.value > 1 && m.actual == 0 {
      RoundDivExact(0, policy.rounding.value);
    }
  }

  /** Clocking out later never costs the employee payable minutes or overtime, and never looks like
      leaving earlier; the scheduled time, the breaks and the lateness do not move. */
  lemma LaterClockOut(policy: Policy, shift: Option<Shift>, start: Option<int>, end: Option<int>,
                      clockIn: Option<int>, out: int, out': int, breakMinutes: int)
    requires out <= out'
    ensures var m := CalculateMetrics(policy, shift, start, end, clockIn, Some(out), breakMinutes);
            var m' := CalculateMetrics(policy, shift, start, end, clockIn, Some(out'), breakMinutes);
            && m.actual <= m'.actual && m.payable <= m'.payable && m.overtime <= m'.overtime
            && m'.earlyLeave <= m.earlyLeave
            && m'.scheduled == m.scheduled && m'.breaks == m.breaks && m'.late == m.late
  {
    var m := CalculateMetrics(policy, shift, start, end, clockIn, Some(out), breakMinutes);
    var m' := CalculateMetrics(policy, shift, start, end, clockIn, Some(out'), breakMinutes);
    if clockIn.Some? {
      RoundDivMonotone(out - clockIn.value, out' - clockIn.value, MINUTE);
    }
    RoundMinutesMonotone(Max(0, m.actual - m.breaks), Max(0, m'.actual - m'.breaks), policy.rounding);
    var stop := if shift.Some? then Some(shift.value.endsAt) else end;
    if stop.Some? {
      RoundDivMonotone(stop.value - out', stop.value - out, MINUTE);
    }
  }

  /** Clocking in later never gains payable minutes or overtime, and never looks less late. */
  lemma LaterClockIn(policy: Policy, shift: Option<Shift>, start: Option<int>, end: Option<int>,
                     at: int, at': int, clockOut: Option<int>, breakMinutes: int)
    requires at <= at'
    ensures var m := CalculateMetrics(policy, shift, start, end, Some(at), clockOut, breakMinutes);
            var m' := CalculateMetrics(policy, shift, start, end, Some(at'), clockOut, breakMinutes);
            && m'.actual <= m.actual && m'.payable <= m.payable && m'.overtime <= m.overtime
            && m.late <= m'.late
            && m'.scheduled == m.scheduled && m'.breaks == m.breaks && m'.earlyLeave == m.earlyLeave
  {
    var m := CalculateMetrics(policy, shift, start, end, Some(at), clockOut, breakMinutes);
    var m' := CalculateMetrics(policy, shift, start, end, Some(at'), clockOut, breakMinutes);
    if clockOut.Some? {
      RoundDivMonotone(clockOut.value - at', clockOut.value - at, MINUTE);
    }
    RoundMinutesMonotone(Max(0, m'.actual - m'.breaks), Max(0, m.actual - m.breaks), policy.rounding);
    var begin := if shift.Some? then Some(shift.value.startsAt) else start;
    if begin.Some? {
      RoundDivMonotone(at - begin.value, at' - begin.value, MINUTE);
    }
  }

  /** Late from the moment the clock-in is half a minute beyond the grace after the scheduled start, early
      from the same distance before the scheduled end; and overtime is what lies above the threshold, so
      regular time never exceeds it. */
  lemma GraceExactly(policy: Policy, shift: Shift, clockIn: int, clockOut: int, breakMinutes: int)
    ensures var m := CalculateMetrics(policy, Some(shift), None, None, Some(clockIn), Some(clockOut), breakMinutes);
            var threshold := policy.dailyOvertime.GetOr(m.scheduled);
            && (m.late > 0 <==> 2 * (clockIn - shift.startsAt) >= (2 * policy.graceLate + 1) * MINUTE)
            && (m.earlyLeave > 0 <==> 2 * (shift.endsAt - clockOut) >= (2 * policy.graceEarlyLeave + 1) * MINUTE)
            && (m.overtime > 0 <==> m.payable > threshold > 0)
            && (threshold > 0 ==> m.payable - m.overtime <= threshold)
  {}

  // ---------------------------------------------------------------- every column by itself

  /** `minutes` is the distance to the nearest minute, halves upwards, beyond a number of free minutes. */
  predicate MinutesBeyond(distance: int, free: int, minutes: nat) {
    && (minutes == 0 <==> 2 * distance < (2 * free + 1) * 60_000)
    && (minutes > 0 ==> -60_000 <= 2 * (distance - (minutes + free) * 60_000) < 60_000)
  }

  lemma DurationIsBeyond(startsAt: int, endsAt: int, breakMinutes: int)
    ensures MinutesBeyond(endsAt - startsAt, breakMinutes, DurationMinutes(startsAt, endsAt, breakMinutes))
  {}

  /** What is paid of `worked` minutes under a policy: the nearest multiple of its increment, halves upwards,
      of which overtime is what lies above the threshold, if there is one. */
  ghost predicate PaidFor(worked: nat, policy: Policy, threshold: nat, payable: nat, overtime: nat) {
    && (policy.rounding.Some? && policy.rounding.value > 1 ==>
          payable % policy.rounding.value == 0 && 2 * payable <= 2 * worked + policy.rounding.value < 2 * payable + 2 * policy.rounding.value)
    && (policy.rounding.None? || policy.rounding.value <= 1 ==> payable == worked)
    && (threshold > 0 && payable > threshold ==> overtime == payable - threshold)
    && (threshold == 0 || payable <= threshold ==> overtime == 0)
  }

  lemma RoundedIsPaid(worked: nat, policy: Policy)
    ensures PaidFor(worked, policy, 0, RoundMinutes(worked, policy.rounding), 0)
  {
    if policy.rounding.Some? && policy.rounding.value > 1 {
      var q, inc := RoundDiv(worked, policy.rounding.value), policy.rounding.value;
      MultipleMod(q, inc);
      assert q * inc == inc * q;
    }
  }

  /** All columns of a computed row: the scheduled and the worked time, the break that is deducted, what is
      paid and what of it is overtime, lateness and early leave beyond grace. */
  lemma MetricsColumns(policy: Policy, shift: Option<Shift>, scheduledStart: Option<int>, scheduledEnd: Option<int>,
                       clockIn: Option<int>, clockOut: Option<int>, breakMinutes: int)
    ensures var m := CalculateMetrics(policy, shift, scheduledStart, scheduledEnd, clockIn, clockOut, breakMinutes);
            var start := if shift.Some? then Some(shift.value.startsAt) else scheduledStart;
            var end := if shift.Some? then Some(shift.value.endsAt) else scheduledEnd;
            && (if start.Some? && end.Some?
                then MinutesBeyond(end.value - start.value, if shift.Some? then shift.value.breakMinutes else breakMinutes, m.scheduled)
                else m.scheduled == 0)
            && (if clockIn.Some? && clockOut.Some? then MinutesBeyond(clockOut.value - clockIn.value, 0, m.actual) else m.actual == 0)
            && (breakMinutes >= 0 ==> m.breaks == breakMinutes) && (breakMinutes < 0 ==> m.breaks == 0)
            && PaidFor(if m.actual > m.breaks then m.actual - m.breaks else 0, policy,
                       if policy.dailyOvertime.Some? then policy.dailyOvertime.value else m.scheduled, m.payable, m.overtime)
            && (if start.Some? && clockIn.Some? then MinutesBeyond(clockIn.value - start.value, policy.graceLate, m.late) else m.late == 0)
            && (if end.Some? && clockOut.Some? then MinutesBeyond(end.value - clockOut.value, policy.graceEarlyLeave, m.earlyLeave) else m.earlyLeave == 0)
  {
    var m := CalculateMetrics(policy, shift, scheduledStart, scheduledEnd, clockIn, clockOut, breakMinutes);
    RoundedIsPaid(if m.actual > m.breaks then m.actual - m.breaks else 0, policy);
  }
}
