/** Days and months of the UTC calendar. */
module Calendar {
  import opened Time

  // ---------------------------------------------------------------- days and months

  predicate LeapYear(y: int) { y % 4 == 0 && (y % 100 != 0 || y % 400 == 0) }

  /** The day number of January 1st, as ECMAScript defines it. */
  function DayFromYear(y: int): int {
    365 * (y - 1970) + (y - 1969) / 4 - (y - 1901) / 100 + (y - 1601) / 400
  }

  function DaysInMonth(y: int, month: nat): nat
    requires month < 12
  {
    if month == 1 then if LeapYear(y) then 29 else 28
    else if month == 3 || month == 5 || month == 8 || month == 10 then 30
    else 31
  }

  function DaysBefore(y: int, month: nat): nat
    requires month < 12
  {
    if month == 0 then 0 else DaysBefore(y, month - 1) + DaysInMonth(y, month - 1)
  }

  /** Months are numbered 12 * year + month, so the month after `m` is `m + 1` across year ends too. */
  function MonthStart(m: int): int {
    DAY * (DayFromYear(m / 12) + DaysBefore(m / 12, m % 12))
  }

  lemma NextQuotient(a: int, d: int)
    requires d > 1
    ensures (a + 1) / d == a / d + (if (a + 1) % d == 0 then 1 else 0)
  {
    var q, r := a / d, a % d;
    assert a == d * q + r;
    if r == d - 1 {
      assert a + 1 == d * (q + 1);
      QuotientIs(a + 1, d, q + 1, 0);
    } else {
      QuotientIs(a + 1, d, q, r + 1);
    }
  }

  lemma QuotientIs(a: int, d: int, q: int, r: int)
    requires d > 0 && a == d * q + r && 0 <= r < d
    ensures a / d == q && a % d == r
  {
    var q', r' := a / d, a % d;
    assert a == d * q' + r';
    if q < q' {
      MulGap(d, q, q');
      assert false;
    } else if q' < q {
      MulGap(d, q', q);
      assert false;
    }
  }

  lemma YearLength(y: int)
    ensures DayFromYear(y + 1) == DayFromYear(y) + (if LeapYear(y) then 366 else 365)
  {
    NextQuotient(y - 1969, 4);
    NextQuotient(y - 1901, 100);
    NextQuotient(y - 1601, 400);
    assert (y - 1968) % 4 == 0 <==> y % 4 == 0;
    assert (y - 1900) % 100 == 0 <==> y % 100 == 0;
    assert (y - 1600) % 400 == 0 <==> y % 400 == 0;
    assert y % 400 == 0 ==> y % 100 == 0;
    assert y % 100 == 0 ==> y % 4 == 0;
  }

  lemma DaysInYear(y: int)
    ensures DaysBefore(y, 11) + 31 == if LeapYear(y) then 366 else 365
  {
    assert DaysBefore(y, 1) == 31;
    assert DaysBefore(y, 2) == 59 + (if LeapYear(y) then 1 else 0);
    assert DaysBefore(y, 4) == DaysBefore(y, 2) + 61;
    assert DaysBefore(y, 6) == DaysBefore(y, 4) + 61;
    assert DaysBefore(y, 8) == DaysBefore(y, 6) + 62;
    assert DaysBefore(y, 10) == DaysBefore(y, 8) + 61;
  }

  lemma WithinYear(y: int, k: nat)
    requires k < 11
    ensures (12 * y + k + 1) / 12 == y && (12 * y + k + 1) % 12 == k + 1
  {
    QuotientIs(12 * y + k + 1, 12, y, k + 1);
  }

  lemma YearEnd(y: int)
    ensures MonthStart(12 * (y + 1)) == DAY * (DayFromYear(y) + DaysBefore(y, 11) + 31)
  {
    QuotientIs(12 * (y + 1), 12, y + 1, 0);
    YearLength(y);
    DaysInYear(y);
  }

  lemma MonthLength(m: int)
    ensures MonthStart(m + 1) == MonthStart(m) + DAY * DaysInMonth(m / 12, m % 12)
  {
    var y, k := m / 12, m % 12;
    assert m == 12 * y + k;
    if k < 11 {
      WithinYear(y, k);
    } else {
      YearEnd(y);
    }
  }

  lemma MarchFirst(y: int)
    ensures MonthStart(12 * y + 2) == DAY * (DayFromYear(y) + 31 + DaysInMonth(y, 1))
  {
    WithinYear(y, 1);
    assert DaysBefore(y, 1) == 31;
  }

  /** With the month lengths these dates fix every month: January 1st of 1970, March 1st of 2000, after the
      leap day of a year divisible by 400, and March 1st of 1900, which had none. */
  lemma MonthsAreAnchored(y: int)
    ensures y == 1970 ==> MonthStart(12 * y) == 0
    ensures y == 2000 ==> MonthStart(12 * y + 2) == 951_868_800_000
    ensures y == 1900 ==> MonthStart(12 * y + 2) == -2_203_891_200_000
  {
    QuotientIs(12 * y, 12, y, 0);
    MarchFirst(y);
  }

  function DayStart(d: int): int { DAY * d }

  // ---------------------------------------------------------------- any calendar

  /** A calendar cuts time into units: later units start strictly later. */
  ghost predicate Ascending(start: int -> int) {
    forall u, v | u < v :: Earlier(start, u, v)
  }

  ghost predicate Earlier(start: int -> int, u: int, v: int) { start(u) < start(v) }

  lemma Ascends(start: int -> int, u: int, v: int)
    requires Ascending(start) && u <= v
    ensures start(u) <= start(v)
    ensures u < v ==> start(u) < start(v)
  {
    if u < v {
      assert Earlier(start, u, v);
    }
  }

  lemma {:induction false} UnitExists(start: int -> int, t: int, u: int)
    requires Ascending(start)
    ensures exists r :: start(r) <= t < start(r + 1)
    decreases if t < start(u) then start(u) - t else t - start(u)
  {
    Ascends(start, u - 1, u);
    Ascends(start, u, u + 1);
    if t < start(u) {
      if start(u - 1) <= t {
        assert start(u - 1) <= t < start(u - 1 + 1);
      } else {
        UnitExists(start, t, u - 1);
      }
    } else if t >= start(u + 1) {
      UnitExists(start, t, u + 1);
    }
  }

  /** The unit an instant falls into. */
  ghost function UnitOf(start: int -> int, t: int): (u: int)
    requires Ascending(start)
    ensures start(u) <= t < start(u + 1)
  {
    UnitExists(start, t, 0);
    var u :| start(u) <= t < start(u + 1);
    u
  }

  /** Finds it by walking from unit `near`. */
  method FindUnit(start: int -> int, t: int, near: int) returns (u: int)
    requires Ascending(start)
    ensures u == UnitOf(start, t)
  {
    u := near;
    while t < start(u)
      decreases start(u) - t
    {
      Ascends(start, u - 1, u);
      u := u - 1;
    }
    while t >= start(u + 1)
      invariant start(u) <= t
      decreases t - start(u)
    {
      Ascends(start, u, u + 1);
      u := u + 1;
    }
    UnitIsUnique(start, t, u);
  }

  /** No instant lies in two units. */
  lemma UnitIsUnique(start: int -> int, t: int, u: int)
    requires Ascending(start)
    ensures start(u) <= t < start(u + 1) <==> UnitOf(start, t) == u
  {
    var r := UnitOf(start, t);
    if r < u {
      Ascends(start, r + 1, u);
    } else if u < r {
      Ascends(start, u + 1, r);
    }
  }

  function CalendarOf(daily: bool): (start: int -> int)
    ensures Ascending(start)
  {
    assert Ascending(MonthStart) by { MonthsAscend(); }
    assert Ascending(DayStart);
    if daily then DayStart else MonthStart
  }

  lemma NextMonthIsLater(m: int)
    ensures MonthStart(m) < MonthStart(m + 1)
  {
    MonthLength(m);
  }

  lemma {:induction false} LaterMonths(m: int, k: nat)
    ensures MonthStart(m) + k <= MonthStart(m + k)
    decreases k
  {
    if k > 0 {
      LaterMonths(m, k - 1);
      NextMonthIsLater(m + k - 1);
    }
  }

  lemma MonthsAscend()
    ensures Ascending(MonthStart)
  {
    forall u, v | u < v
      ensures Earlier(MonthStart, u, v)
    {
      LaterMonths(u, v - u);
    }
  }

  ghost function MonthOf(t: int): int { UnitOf(CalendarOf(false), t) }

  ghost function YearOf(t: int): int { MonthOf(t) / 12 }

  lemma YearStartsFirst(m: int)
    ensures MonthStart(12 * (m / 12)) <= MonthStart(m)
  {
    LaterMonths(12 * (m / 12), m - 12 * (m / 12));
  }

  lemma JanuaryFirst(t: int)
    ensures MonthStart(12 * YearOf(t)) <= t
  {
    YearStartsFirst(MonthOf(t));
  }

  lemma DayUnits(t: int)
    ensures UnitOf(CalendarOf(true), t) == DayNumber(t)
  {
    UnitIsUnique(CalendarOf(true), t, DayNumber(t));
  }
}
