/** Minutes of a worked interval that fall into a daily premium window, which may wrap past midnight. */
module TimeWindow {
  import opened Time

  /** The circular daily window from minute `s` to minute `e`; equal bounds mean the whole day. */
  predicate InWindow(minute: int, s: nat, e: nat) {
    var m := minute % 1440;
    if e > s then s <= m < e else s <= m || m < e
  }

  /** Reference: how many of the minutes `a`, ..., `b - 1` lie in the window. */
  function MinutesInWindow(a: int, b: int, s: nat, e: nat): nat
    decreases b - a
  {
    if b <= a then 0 else MinutesInWindow(a, b - 1, s, e) + (if InWindow(b - 1, s, e) then 1 else 0)
  }

  /** The same measure on milliseconds: an instant is in the window when its minute is. */
  function MillisInWindow(a: int, b: int, s: nat, e: nat): nat
    decreases b - a
  {
    if b <= a then 0 else MillisInWindow(a, b - 1, s, e) + (if InWindow((b - 1) / MINUTE, s, e) then 1 else 0)
  }

  function WindowEnd(day: int, s: nat, e: nat): int {
    if e > s then day + e * MINUTE else day + DAY + e * MINUTE
  }

  function DayOverlap(start: int, end: int, day: int, s: nat, e: nat): nat {
    var lo := Max(start, day + s * MINUTE);
    var hi := Min(end, WindowEnd(day, s, e));
    if hi > lo then RoundDiv(hi - lo, MINUTE) else 0
  }

  function OverlapFrom(start: int, end: int, day: int, stop: int, s: nat, e: nat): nat
    decreases stop - day
  {
    if day > stop then 0 else DayOverlap(start, end, day, s, e) + OverlapFrom(start, end, day + DAY, stop, s, e)
  }

  function OverlapMinutes(start: int, end: int, s: nat, e: nat): nat {
    if end <= start then 0
    else OverlapFrom(start, end, StartOfDay(start) - DAY, StartOfDay(end) + 2 * DAY, s, e)
  }

  method TimeWindowOverlapMinutes(start: int, end: int, s: nat, e: nat) returns (total: nat)
    requires s < 1440 && e < 1440
    ensures total == OverlapMinutes(start, end, s, e)
    ensures start % MINUTE == 0 && end % MINUTE == 0 ==>
              total == MinutesInWindow(start / MINUTE, end / MINUTE, s, e)
  {
    if end <= start {
      return 0;
    }
    total := 0;
    var day := StartOfDay(start) - DAY;
    var stop := StartOfDay(end) + 2 * DAY;
    while day <= stop
      invariant total + OverlapFrom(start, end, day, stop, s, e) == OverlapMinutes(start, end, s, e)
      decreases stop - day
    {
      var windowStart := day + s * MINUTE;
      var windowEnd := if e > s then day + e * MINUTE else day + DAY + e * MINUTE;
      var overlapStart := Max(start, windowStart);
      var overlapEnd := Min(end, windowEnd);
      if overlapEnd > overlapStart {
        total := total + RoundDiv(overlapEnd - overlapStart, MINUTE);
      }
      day := day + DAY;
    }
    if start % MINUTE == 0 && end % MINUTE == 0 {
      OverlapIsExact(start / MINUTE, end / MINUTE, s, e);
    }
  }

  // ---------------------------------------------------------------- measuring one day

  /** From one window start to the next, the window is exactly a prefix. */
  lemma WindowIsPrefix(day: int, t: int, s: nat, e: nat)
    requires s < 1440 && e < 1440 && day % DAY == 0
    requires day + s * MINUTE <= t < day + DAY + s * MINUTE
    ensures InWindow(t / MINUTE, s, e) <==> t < WindowEnd(day, s, e)
  {
    var k := day / DAY;
    assert day == k * DAY;
    var q := t / MINUTE;
    assert q * MINUTE <= t < q * MINUTE + MINUTE;
    if q < (k + 1) * 1440 {
      assert q % 1440 == q - k * 1440;
    } else {
      assert q % 1440 == q - (k + 1) * 1440;
    }
  }

  lemma {:induction false} MeasureWithinDay(day: int, a: int, b: int, s: nat, e: nat)
    requires s < 1440 && e < 1440 && day % DAY == 0
    requires day + s * MINUTE <= a <= b <= day + DAY + s * MINUTE
    ensures MillisInWindow(a, b, s, e) == Max(0, Min(b, WindowEnd(day, s, e)) - a)
    decreases b - a
  {
    if a < b {
      MeasureWithinDay(day, a, b - 1, s, e);
      WindowIsPrefix(day, b - 1, s, e);
    }
  }

  lemma {:induction false} MillisSplit(a: int, b: int, c: int, s: nat, e: nat)
    requires a <= b <= c
    ensures MillisInWindow(a, c, s, e) == MillisInWindow(a, b, s, e) + MillisInWindow(b, c, s, e)
    decreases c - b
  {
    if b < c {
      MillisSplit(a, b, c - 1, s, e);
    }
  }

  function Clamp(lo: int, hi: int, x: int): int { Max(lo, Min(hi, x)) }

  lemma AlignedRounding(lo: int, hi: int)
    requires lo % MINUTE == 0 && hi % MINUTE == 0
    ensures MINUTE * RoundDiv(hi - lo, MINUTE) == hi - lo
  {
    RoundDivExact(hi / MINUTE - lo / MINUTE, MINUTE);
  }

  lemma WholeMinutes(k: int)
    ensures (MINUTE * k) % MINUTE == 0
  {}

  lemma AlignedWindow(day: int, s: nat, e: nat)
    requires day % DAY == 0
    ensures (day + s * MINUTE) % MINUTE == 0 && WindowEnd(day, s, e) % MINUTE == 0
  {
    var k := day / DAY;
    assert day == MINUTE * (1440 * k);
    WholeMinutes(1440 * k + s);
    WholeMinutes(1440 * k + e);
    WholeMinutes(1440 * k + 1440 + e);
  }

  /** Before rounding, one day's overlap is the true measure between two window starts. */
  lemma RawOverlapMeasures(start: int, end: int, day: int, s: nat, e: nat)
    requires s < 1440 && e < 1440 && start < end && day % DAY == 0
    ensures MillisInWindow(Clamp(start, end, day + s * MINUTE), Clamp(start, end, day + DAY + s * MINUTE), s, e)
         == Max(0, Min(end, WindowEnd(day, s, e)) - Max(start, day + s * MINUTE))
  {
    var x, y := Clamp(start, end, day + s * MINUTE), Clamp(start, end, day + DAY + s * MINUTE);
    if x < y {
      MeasureWithinDay(day, x, y, s, e);
    }
  }

  /** One day's share is the true measure rounded to whole minutes. */
  lemma DayOverlapMeasures(start: int, end: int, day: int, s: nat, e: nat)
    requires s < 1440 && e < 1440 && start < end && day % DAY == 0
    ensures var exact := MillisInWindow(Clamp(start, end, day + s * MINUTE), Clamp(start, end, day + DAY + s * MINUTE), s, e);
            && Abs(2 * (MINUTE * DayOverlap(start, end, day, s, e) - exact)) <= MINUTE
            && (start % MINUTE == 0 && end % MINUTE == 0 ==> MINUTE * DayOverlap(start, end, day, s, e) == exact)
  {
    RawOverlapMeasures(start, end, day, s, e);
    if start % MINUTE == 0 && end % MINUTE == 0 {
      AlignedWindow(day, s, e);
      AlignedRounding(Max(start, day + s * MINUTE), Min(end, WindowEnd(day, s, e)));
    }
  }

  /** The whole loop: at most half a minute is lost or gained per visited day, and nothing on whole minutes. */
  lemma {:induction false} OverlapMeasures(start: int, end: int, day: int, days: nat, s: nat, e: nat)
    requires s < 1440 && e < 1440 && start < end
    requires day % DAY == 0 && end <= day + days * DAY
    ensures var stop := day + days * DAY - DAY;
            var err := MINUTE * OverlapFrom(start, end, day, stop, s, e)
                         - MillisInWindow(Clamp(start, end, day + s * MINUTE), end, s, e);
            && Abs(2 * err) <= MINUTE * days
            && (start % MINUTE == 0 && end % MINUTE == 0 ==> err == 0)
    decreases days
  {
    if days > 0 {
      OverlapMeasures(start, end, day + DAY, days - 1, s, e);
      DayOverlapMeasures(start, end, day, s, e);
      MillisSplit(Clamp(start, end, day + s * MINUTE), Clamp(start, end, day + DAY + s * MINUTE), end, s, e);
    }
  }

  /** On whole minutes the loop measures exactly. */
  lemma LoopIsExact(start: int, end: int, s: nat, e: nat)
    requires s < 1440 && e < 1440 && start < end && start % MINUTE == 0 && end % MINUTE == 0
    ensures MINUTE * OverlapMinutes(start, end, s, e) == MillisInWindow(start, end, s, e)
  {
    OverlapMeasures(start, end, StartOfDay(start) - DAY, DayNumber(end) - DayNumber(start) + 4, s, e);
  }

  // ---------------------------------------------------------------- main results

  /** Any punches, seconds included: the paid minutes differ from the true time in the window
      by at most half a minute for each of the (at most calendar days + 4) visited days. */
  lemma OverlapErrorBound(start: int, end: int, s: nat, e: nat)
    requires s < 1440 && e < 1440 && start < end
    ensures 2 * Abs(MINUTE * OverlapMinutes(start, end, s, e) - MillisInWindow(start, end, s, e))
              <= MINUTE * (DayNumber(end) - DayNumber(start) + 4)
  {
    OverlapMeasures(start, end, StartOfDay(start) - DAY, DayNumber(end) - DayNumber(start) + 4, s, e);
  }

  lemma {:induction false} MinuteBlock(m: int, k: nat, s: nat, e: nat)
    requires k <= MINUTE
    ensures MillisInWindow(m * MINUTE, m * MINUTE + k, s, e) == if InWindow(m, s, e) then k else 0
    decreases k
  {
    if k > 0 {
      MinuteBlock(m, k - 1, s, e);
      assert (m * MINUTE + k - 1) / MINUTE == m;
    }
  }

  lemma {:induction false} MillisAreMinutes(a: int, b: int, s: nat, e: nat)
    requires a <= b
    ensures MillisInWindow(a * MINUTE, b * MINUTE, s, e) == MINUTE * MinutesInWindow(a, b, s, e)
    decreases b - a
  {
    if a < b {
      MillisAreMinutes(a, b - 1, s, e);
      MinuteBlock(b - 1, MINUTE, s, e);
      MillisSplit(a * MINUTE, (b - 1) * MINUTE, b * MINUTE, s, e);
    }
  }

  /** On whole minutes the day loop counts exactly the minutes that lie in the circular window. */
  lemma OverlapIsExact(a: int, b: int, s: nat, e: nat)
    requires s < 1440 && e < 1440
    ensures OverlapMinutes(a * MINUTE, b * MINUTE, s, e) == MinutesInWindow(a, b, s, e)
  {
    if a < b {
      WholeMinutes(a);
      WholeMinutes(b);
      LoopIsExact(a * MINUTE, b * MINUTE, s, e);
      MillisAreMinutes(a, b, s, e);
    }
  }

  lemma {:induction false} MinutesSplit(a: int, b: int, c: int, s: nat, e: nat)
    requires a <= b <= c
    ensures MinutesInWindow(a, c, s, e) == MinutesInWindow(a, b, s, e) + MinutesInWindow(b, c, s, e)
    decreases c - b
  {
    if b < c {
      MinutesSplit(a, b, c - 1, s, e);
    }
  }

  /** Splitting a shift at any minute neither loses nor doubles window minutes. */
  lemma OverlapIsAdditive(a: int, b: int, c: int, s: nat, e: nat)
    requires a <= b <= c && s < 1440 && e < 1440
    ensures OverlapMinutes(a * MINUTE, c * MINUTE, s, e)
         == OverlapMinutes(a * MINUTE, b * MINUTE, s, e) + OverlapMinutes(b * MINUTE, c * MINUTE, s, e)
  {
    OverlapIsExact(a, c, s, e);
    OverlapIsExact(a, b, s, e);
    OverlapIsExact(b, c, s, e);
    MinutesSplit(a, b, c, s, e);
  }

  lemma {:induction false} ComplementMinutes(a: int, b: int, s: nat, e: nat)
    requires a <= b && s < 1440 && e < 1440 && s != e
    ensures MinutesInWindow(a, b, s, e) + MinutesInWindow(a, b, e, s) == b - a
    decreases b - a
  {
    if a < b {
      ComplementMinutes(a, b - 1, s, e);
    }
  }

  /** A day rule and the night rule with swapped bounds together cover every worked minute once. */
  lemma ComplementaryWindowsCover(a: int, b: int, s: nat, e: nat)
    requires a <= b && s < 1440 && e < 1440 && s != e
    ensures OverlapMinutes(a * MINUTE, b * MINUTE, s, e) + OverlapMinutes(a * MINUTE, b * MINUTE, e, s) == b - a
  {
    OverlapIsExact(a, b, s, e);
    OverlapIsExact(a, b, e, s);
    ComplementMinutes(a, b, s, e);
  }

  /** Equal bounds are a full day: every worked minute counts. */
  lemma EqualBoundsCoverAll(a: int, b: int, s: nat)
    requires a <= b && s < 1440
    ensures OverlapMinutes(a * MINUTE, b * MINUTE, s, s) == b - a
  {
    OverlapIsExact(a, b, s, s);
    AllMinutes(a, b, s);
  }

  lemma {:induction false} AllMinutes(a: int, b: int, s: nat)
    requires a <= b && s < 1440
    ensures MinutesInWindow(a, b, s, s) == b - a
    decreases b - a
  {
    if a < b {
      AllMinutes(a, b - 1, s);
    }
  }
}
