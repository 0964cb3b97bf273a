/** Instants are whole milliseconds since the epoch, always in UTC, so a day has exactly 1440 minutes. */
module Time {
  const MINUTE := 60_000
  const HOUR := 3_600_000
  const DAY := 86_400_000

  function Min(a: int, b: int): int { if a <= b then a else b }

  function Max(a: int, b: int): int { if a >= b then a else b }

  function Abs(a: int): nat { if a < 0 then -a else a }

  function StartOfDay(t: int): int { t - t % DAY }

  function EndOfDay(t: int): int { StartOfDay(t) + DAY - 1 }

  /** The calendar day of an instant; two instants print the same date exactly when these agree. */
  function DayNumber(t: int): int { t / DAY }

  /** JavaScript's Math.round(n / d): the nearest integer, halves upwards. */
  function RoundDiv(n: int, d: int): (r: int)
    requires d > 0
    ensures -d <= 2 * (n - d * r) < d
    ensures n >= 0 ==> r >= 0
  {
    RoundDivBounds(n, d);
    (2 * n + d) / (2 * d)
  }

  lemma MulGap(d: int, a: int, b: int)
    requires d > 0 && a < b
    ensures d * a + d <= d * b
  {
    assert d * b == d * a + d + d * (b - a - 1);
  }

  lemma RoundDivBounds(n: int, d: int)
    requires d > 0
    ensures var r := (2 * n + d) / (2 * d); -d <= 2 * (n - d * r) < d && (n >= 0 ==> r >= 0)
  {
    var q, m := (2 * n + d) / (2 * d), (2 * n + d) % (2 * d);
    assert 2 * n + d == (2 * d) * q + m;
    assert (2 * d) * q == 2 * (d * q);
    if n >= 0 && q < 0 {
      MulGap(d, q, 0);
      assert false;
    }
  }

  lemma RoundDivMonotone(n: int, n': int, d: int)
    requires d > 0 && n <= n'
    ensures RoundDiv(n, d) <= RoundDiv(n', d)
  {
    var r, r' := RoundDiv(n, d), RoundDiv(n', d);
    if r' < r {
      MulGap(d, r', r);
      assert false;
    }
  }

  lemma RoundDivExact(k: int, d: int)
    requires d > 0
    ensures RoundDiv(d * k, d) == k
  {
    var r := RoundDiv(d * k, d);
    if r < k {
      MulGap(d, r, k);
      assert false;
    } else if k < r {
      MulGap(d, k, r);
      assert false;
    }
  }
}
