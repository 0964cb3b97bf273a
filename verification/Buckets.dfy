/** The dashboard's trend buckets: a period cut into calendar days or calendar months. */
module Buckets {
  import opened Time
  import opened Wrappers
  import opened Sums
  import opened Calendar

  // ---------------------------------------------------------------- periods

  datatype PeriodKey = Last7Days | Last30Days | Last90Days | YearToDate | Custom

  datatype PeriodError = FromRequired | FromAfterTo

  datatype Period = Period(from: int, to: int, daily: bool)

  function DaysAgo(t: int, days: nat): int { t - days * DAY }

  method ResolvePeriod(key: Option<PeriodKey>, from: Option<int>, to: Option<int>, now: int)
    returns (r: Result<Period, PeriodError>)
    ensures r.Failure? <==> key == Some(Custom) && (from.None? || from.value > to.GetOr(now))
    ensures r.Success? ==>
              && r.value.from <= r.value.to == to.GetOr(now)
              && (r.value.daily <==> r.value.to - r.value.from <= 45 * DAY)
              && (key == Some(Custom) ==> from == Some(r.value.from))
              && (key == Some(YearToDate) ==> r.value.from == MonthStart(12 * YearOf(r.value.to)))
              && (key == Some(Last7Days) ==> r.value.to - r.value.from == 7 * DAY)
              && (key == Some(Last90Days) ==> r.value.to - r.value.from == 90 * DAY)
              && (key.None? || key == Some(Last30Days) ==> r.value.to - r.value.from == 30 * DAY)
  {
    var end := to.GetOr(now);
    var start: int;
    if key == Some(Custom) {
      if from.None? {
        return Failure(FromRequired);
      }
      start := from.value;
    } else if key == Some(Last7Days) {
      start := DaysAgo(end, 7);
    } else if key == Some(Last90Days) {
      start := DaysAgo(end, 90);
    } else if key == Some(YearToDate) {
      var month := FindUnit(CalendarOf(false), end, 12 * 1970);
      start := MonthStart(12 * (month / 12));
      JanuaryFirst(end);
    } else {
      start := DaysAgo(end, 30);
    }
    if start > end {
      return Failure(FromAfterTo);
    }
    return Success(Period(start, end, end - start <= 45 * DAY));
  }

  // ---------------------------------------------------------------- buckets

  /** A bucket's label is the calendar unit it stands for. */
  datatype Bucket = Bucket(unit: int, from: int, to: int)

  /** Consecutive, non-empty buckets from `lo` to `hi`, both inclusive. */
  ghost predicate Consecutive(buckets: seq<Bucket>, lo: int, hi: int) {
    && |buckets| > 0
    && buckets[0].from == lo
    && buckets[|buckets| - 1].to == hi
    && (forall i | 0 <= i < |buckets| :: buckets[i].from <= buckets[i].to)
    && (forall i, j | 0 <= i < j < |buckets| && j == i + 1 :: buckets[j].from == buckets[i].to + 1)
  }

  /** The bucket of unit `u`, cut off at the end of the period. */
  function BucketAt(start: int -> int, to: int, u: int): Bucket {
    Bucket(u, start(u), Min(start(u + 1) - 1, to))
  }

  /** One bucket for every unit from the one the period starts in to the one it ends in. */
  ghost predicate BucketsOf(buckets: seq<Bucket>, start: int -> int, from: int, to: int)
    requires Ascending(start)
  {
    && |buckets| == UnitOf(start, to) - UnitOf(start, from) + 1
    && forall i | 0 <= i < |buckets| :: buckets[i] == BucketAt(start, to, UnitOf(start, from) + i)
  }

  method CutPeriod(start: int -> int, from: int, to: int) returns (buckets: seq<Bucket>)
    requires Ascending(start) && from <= to
    ensures BucketsOf(buckets, start, from, to)
  {
    buckets := [];
    var unit := FindUnit(start, from, 0);
    ghost var first := unit;
    var cursor := start(unit);
    while cursor <= to
      invariant cursor == start(unit) && unit == first + |buckets|
      invariant start(if unit == first then first else unit - 1) <= to
      invariant forall i | 0 <= i < |buckets| :: buckets[i] == BucketAt(start, to, first + i)
    {
      Ascends(start, unit, unit + 1);
      var next := start(unit + 1);
      buckets := buckets + [Bucket(unit, cursor, Min(next - 1, to))];
      cursor := next;
      unit := unit + 1;
    }
    assert unit > first;
    UnitIsUnique(start, to, unit - 1);
  }

  method BuildBuckets(p: Period) returns (buckets: seq<Bucket>)
    requires p.from <= p.to
    ensures BucketsOf(buckets, CalendarOf(p.daily), p.from, p.to)
    ensures Consecutive(buckets, CalendarOf(p.daily)(UnitOf(CalendarOf(p.daily), p.from)), p.to)
    ensures p.daily && p.to - p.from <= 45 * DAY ==> |buckets| <= 46
  {
    buckets := CutPeriod(CalendarOf(p.daily), p.from, p.to);
    BucketsPartition(buckets, CalendarOf(p.daily), p.from, p.to);
    DayUnits(p.from);
    DayUnits(p.to);
  }

  // ---------------------------------------------------------------- main results

  /** The buckets follow each other without gap or overlap, from the start of the first unit, which is
      not after the period's start, exactly to the period's end; none is empty. */
  lemma BucketsPartition(buckets: seq<Bucket>, start: int -> int, from: int, to: int)
    requires Ascending(start) && from <= to && BucketsOf(buckets, start, from, to)
    ensures Consecutive(buckets, start(UnitOf(start, from)), to)
    ensures start(UnitOf(start, from)) <= from
  {
    var first, last := UnitOf(start, from), UnitOf(start, to);
    if last < first {
      Ascends(start, last + 1, first);
      assert false;
    }
    forall i | 0 <= i < |buckets|
      ensures buckets[i].from <= buckets[i].to
      ensures i < |buckets| - 1 ==> buckets[i].to == start(first + i + 1) - 1
    {
      Ascends(start, first + i, first + i + 1);
      Ascends(start, first + i, last);
      if i < |buckets| - 1 {
        Ascends(start, first + i + 1, last);
      }
    }
  }

  /** An instant of the covered range lies in exactly one bucket: the one labelled with its own unit. */
  lemma BucketOfInstant(buckets: seq<Bucket>, start: int -> int, from: int, to: int, t: int, i: nat)
    requires Ascending(start) && BucketsOf(buckets, start, from, to)
    requires i < |buckets| && t <= to
    ensures buckets[i].from <= t <= buckets[i].to <==> UnitOf(start, t) == buckets[i].unit
  {
    UnitIsUnique(start, t, buckets[i].unit);
  }

  datatype Employee = Employee(hireDate: Option<int>, endDate: Option<int>, terminal: bool, archived: bool)

  datatype Point = Point(headcount: nat, hires: nat, separations: nat)

  function HiredWithin(lo: int, hi: int): Employee -> nat {
    (e: Employee) => if e.hireDate.Some? && lo <= e.hireDate.value <= hi then 1 else 0
  }

  function SeparatedWithin(lo: int, hi: int): Employee -> nat {
    (e: Employee) => if e.terminal && e.endDate.Some? && lo <= e.endDate.value <= hi then 1 else 0
  }

  function OnBoardAt(t: int): Employee -> nat {
    (e: Employee) => if !e.archived && (e.hireDate.None? || e.hireDate.value <= t) then 1 else 0
  }

  function Trend(employees: seq<Employee>, buckets: seq<Bucket>): seq<Point> {
    seq(|buckets|, i requires 0 <= i < |buckets| =>
      Point(Sum(employees, OnBoardAt(buckets[i].to)),
            Sum(employees, HiredWithin(buckets[i].from, buckets[i].to)),
            Sum(employees, SeparatedWithin(buckets[i].from, buckets[i].to))))
  }

  function Hires(): Point -> nat { (p: Point) => p.hires }

  function Separations(): Point -> nat { (p: Point) => p.separations }

  lemma {:induction false} RangesAdd(employees: seq<Employee>, lo: int, mid: int, hi: int)
    requires lo <= mid + 1 <= hi + 1
    ensures Sum(employees, HiredWithin(lo, hi)) == Sum(employees, HiredWithin(lo, mid)) + Sum(employees, HiredWithin(mid + 1, hi))
    ensures Sum(employees, SeparatedWithin(lo, hi)) == Sum(employees, SeparatedWithin(lo, mid)) + Sum(employees, SeparatedWithin(mid + 1, hi))
  {
    if employees != [] {
      RangesAdd(employees[..|employees| - 1], lo, mid, hi);
    }
  }

  lemma TrendSplit(employees: seq<Employee>, buckets: seq<Bucket>)
    requires buckets != []
    ensures var n := |buckets| - 1;
            var head, last := Trend(employees, buckets[..n]), buckets[n];
            && Sum(Trend(employees, buckets), Hires()) == Sum(head, Hires()) + Sum(employees, HiredWithin(last.from, last.to))
            && Sum(Trend(employees, buckets), Separations()) == Sum(head, Separations()) + Sum(employees, SeparatedWithin(last.from, last.to))
  {
    var n := |buckets| - 1;
    var trend := Trend(employees, buckets);
    assert trend == Trend(employees, buckets[..n]) + [trend[n]];
    SumAppend(Trend(employees, buckets[..n]), trend[n], Hires());
    SumAppend(Trend(employees, buckets[..n]), trend[n], Separations());
  }

  /** The buckets' hires and separations add up to those of the whole covered range: nobody is counted
      twice or missed, at the bucket borders or at the cut-off end. */
  lemma {:induction false} BucketCountsAddUp(employees: seq<Employee>, buckets: seq<Bucket>, lo: int, hi: int)
    requires Consecutive(buckets, lo, hi)
    ensures Sum(Trend(employees, buckets), Hires()) == Sum(employees, HiredWithin(lo, hi))
    ensures Sum(Trend(employees, buckets), Separations()) == Sum(employees, SeparatedWithin(lo, hi))
    decreases |buckets|
  {
    var n := |buckets| - 1;
    TrendSplit(employees, buckets);
    if n > 0 {
      var mid := buckets[n - 1].to;
      assert buckets[n - 1 + 1].from == mid + 1;
      assert Consecutive(buckets[..n], lo, mid);
      BucketCountsAddUp(employees, buckets[..n], lo, mid);
      FirstBeforeLast(buckets, lo, hi, n - 1);
      RangesAdd(employees, lo, mid, hi);
    } else {
      assert Trend(employees, buckets[..0]) == [];
    }
  }

  lemma {:induction false} FirstBeforeLast(buckets: seq<Bucket>, lo: int, hi: int, i: nat)
    requires Consecutive(buckets, lo, hi) && i < |buckets|
    ensures lo <= buckets[i].to
    decreases i
  {
    if i > 0 {
      FirstBeforeLast(buckets, lo, hi, i - 1);
      assert buckets[i - 1 + 1].from == buckets[i - 1].to + 1;
    }
  }

  function HiredUnarchived(lo: int, hi: int): Employee -> nat {
    (e: Employee) => if !e.archived && e.hireDate.Some? && lo <= e.hireDate.value <= hi then 1 else 0
  }

  lemma {:induction false} HeadcountDelta(employees: seq<Employee>, a: int, b: int)
    requires a <= b
    ensures Sum(employees, OnBoardAt(b)) == Sum(employees, OnBoardAt(a)) + Sum(employees, HiredUnarchived(a + 1, b))
  {
    if employees != [] {
      HeadcountDelta(employees[..|employees| - 1], a, b);
    }
  }

  /** From one bucket to the next the headcount grows by the bucket's hires who are not archived, so
      never by more than the reported hires and never by less than zero: separations do not lower it. */
  lemma HeadcountFollowsHires(employees: seq<Employee>, buckets: seq<Bucket>, lo: int, hi: int, i: nat)
    requires Consecutive(buckets, lo, hi) && i + 1 < |buckets|
    ensures var t := Trend(employees, buckets);
            && t[i + 1].headcount == t[i].headcount + Sum(employees, HiredUnarchived(buckets[i + 1].from, buckets[i + 1].to))
            && t[i].headcount <= t[i + 1].headcount <= t[i].headcount + t[i + 1].hires
  {
    assert buckets[i + 1].from == buckets[i].to + 1;
    HeadcountDelta(employees, buckets[i].to, buckets[i + 1].to);
    SumAtMost(employees, HiredUnarchived(buckets[i + 1].from, buckets[i + 1].to), HiredWithin(buckets[i + 1].from, buckets[i + 1].to));
  }

  predicate HasLeft(e: Employee, t: int) { e.terminal && e.endDate.Some? && e.endDate.value <= t }

  /** The people on board at `t`: those counted, without those who have left. */
  function StillThereAt(t: int): Employee -> nat {
    (e: Employee) => if !e.archived && (e.hireDate.None? || e.hireDate.value <= t) && !HasLeft(e, t) then 1 else 0
  }

  function CountedAfterLeaving(t: int): Employee -> nat {
    (e: Employee) => if !e.archived && (e.hireDate.None? || e.hireDate.value <= t) && HasLeft(e, t) then 1 else 0
  }

  /** The reported headcount exceeds the number of people on board by exactly those counted who have left;
      it is right if and only if there are none. */
  lemma HeadcountIsRightExactly(employees: seq<Employee>, t: int)
    ensures Sum(employees, OnBoardAt(t)) == Sum(employees, StillThereAt(t)) + Sum(employees, CountedAfterLeaving(t))
    ensures Sum(employees, OnBoardAt(t)) == Sum(employees, StillThereAt(t)) <==>
              forall i | 0 <= i < |employees| && OnBoardAt(t)(employees[i]) == 1 :: !HasLeft(employees[i], t)
  {
    SumPointwise(employees, StillThereAt(t), CountedAfterLeaving(t), OnBoardAt(t));
    SumZero(employees, CountedAfterLeaving(t));
    forall i | 0 <= i < |employees|
      ensures CountedAfterLeaving(t)(employees[i]) == 0 <==> (OnBoardAt(t)(employees[i]) == 1 ==> !HasLeft(employees[i], t))
    {}
  }

  /** One employee, hired at 0 and gone since 10, is still counted at 20. */
  lemma LeaverIsStillCounted() returns (e: Employee)
    ensures HasLeft(e, 20)
    ensures Sum([e], OnBoardAt(20)) == 1 && Sum([e], StillThereAt(20)) == 0
  {
    e := Employee(Some(0), Some(10), true, false);
    assert [e] == [] + [e];
    SumAppend([], e, OnBoardAt(20));
    SumAppend([], e, StillThereAt(20));
  }

  // ---------------------------------------------------------------- every point by itself

  function Counted<T>(rows: seq<T>, weight: T -> nat): set<nat> {
    set k: nat | k < |rows| && weight(rows[k]) == 1
  }

  lemma {:induction false} SumIsCount<T>(rows: seq<T>, weight: T -> nat)
    requires forall i | 0 <= i < |rows| :: weight(rows[i]) <= 1
    ensures Sum(rows, weight) == |Counted(rows, weight)|
  {
    if rows == [] {
      assert Counted(rows, weight) == {};
    } else {
      var n := |rows| - 1;
      SumIsCount(rows[..n], weight);
      assert Counted(rows, weight) == if weight(rows[n]) == 1 then Counted(rows[..n], weight) + {n} else Counted(rows[..n], weight);
    }
  }

  /** Each point of the trend is about its own bucket: the unarchived employees hired by its end or at an
      unknown date, those hired within it, and the terminal ones whose end date lies within it. */
  lemma TrendCounts(employees: seq<Employee>, buckets: seq<Bucket>, i: nat)
    requires i < |buckets|
    ensures |Trend(employees, buckets)| == |buckets|
    ensures var point, b := Trend(employees, buckets)[i], buckets[i];
            && point.headcount == |set k: nat | k < |employees| && !employees[k].archived
                                      && (employees[k].hireDate.Some? ==> employees[k].hireDate.value <= b.to)|
            && point.hires == |set k: nat | k < |employees| && employees[k].hireDate.Some? && b.from <= employees[k].hireDate.value <= b.to|
            && point.separations == |set k: nat | k < |employees| && employees[k].terminal && employees[k].endDate.Some?
                                        && b.from <= employees[k].endDate.value <= b.to|
  {
    var b := buckets[i];
    SumIsCount(employees, OnBoardAt(b.to));
    SumIsCount(employees, HiredWithin(b.from, b.to));
    SumIsCount(employees, SeparatedWithin(b.from, b.to));
    assert Counted(employees, OnBoardAt(b.to))
        == set k: nat | k < |employees| && !employees[k].archived && (employees[k].hireDate.Some? ==> employees[k].hireDate.value <= b.to);
    assert Counted(employees, HiredWithin(b.from, b.to))
        == set k: nat | k < |employees| && employees[k].hireDate.Some? && b.from <= employees[k].hireDate.value <= b.to;
    assert Counted(employees, SeparatedWithin(b.from, b.to))
        == set k: nat | k < |employees| && employees[k].terminal && employees[k].endDate.Some? && b.from <= employees[k].endDate.value <= b.to;
  }

  /** So a point exceeds the people on board at its bucket's end by exactly those counted who have left. */
  lemma TrendExcess(employees: seq<Employee>, buckets: seq<Bucket>, i: nat)
    requires i < |buckets|
    ensures Trend(employees, buckets)[i].headcount
         == Sum(employees, StillThereAt(buckets[i].to)) + Sum(employees, CountedAfterLeaving(buckets[i].to))
  {
    HeadcountIsRightExactly(employees, buckets[i].to);
  }
}
