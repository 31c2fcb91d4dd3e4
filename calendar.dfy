/**
 * Local calendar time as the recurrence engine sees it.
 *
 * An `Instant` is a local calendar day (day 0 is 1970-01-01, a Thursday) plus
 * the milliseconds elapsed since local midnight. The calendar is the
 * proleptic Gregorian one. Time zones and daylight-saving shifts are not
 * modelled: every local day is exactly 86 400 000 ms long.
 */
module Calendar {

  const MsPerDay: int := 86400000

  type TimeOfDay = ms: int | 0 <= ms < 86400000

  datatype Instant = Instant(day: int, ms: TimeOfDay)

  /** The value of `Date.prototype.getTime()`, counted from local midnight of day 0. */
  function Millis(t: Instant): (r: int)
    ensures t.day * MsPerDay <= r < (t.day + 1) * MsPerDay
  {
    t.day * MsPerDay + t.ms
  }

  lemma {:induction false} MillisOrder(a: Instant, b: Instant)
    ensures Millis(a) <= Millis(b) <==> a.day < b.day || (a.day == b.day && a.ms <= b.ms)
    ensures Millis(a) < Millis(b) <==> a.day < b.day || (a.day == b.day && a.ms < b.ms)
  {
    if a.day < b.day {
      assert Millis(b) - Millis(a) == (b.day - a.day) * MsPerDay + b.ms - a.ms;
      assert (b.day - a.day) * MsPerDay >= MsPerDay;
    } else if a.day > b.day {
      assert Millis(a) - Millis(b) == (a.day - b.day) * MsPerDay + a.ms - b.ms;
      assert (a.day - b.day) * MsPerDay >= MsPerDay;
    }
  }

  /** `setHours(0, 0, 0, 0)`: local midnight of the same day. */
  function StartOfDay(t: Instant): (r: Instant)
    ensures r.day == t.day && r.ms == 0
    ensures Millis(r) <= Millis(t)
  {
    Instant(t.day, 0)
  }

  // ---------------------------------------------------------------------------
  // Weekdays

  /** `Date.prototype.getDay()`: 0 is Sunday, 1 Monday, ..., 6 Saturday. */
  function JsWeekday(day: int): (r: int)
    ensures 0 <= r < 7
    ensures (day + 4 - r) % 7 == 0
  {
    (day + 4) % 7
  }

  /** ISO weekday `getDay() || 7`: Monday is 1 and Sunday is 7. */
  function IsoWeekday(day: int): (r: int)
    ensures 1 <= r <= 7
    ensures r % 7 == JsWeekday(day)
  {
    var w := JsWeekday(day);
    if w == 0 then 7 else w
  }

  lemma {:induction false} IsoWeekdayShift(day: int, k: int)
    requires IsoWeekday(day) == 1 && 0 <= k < 7
    ensures IsoWeekday(day + k) == k + 1
  {
    assert (day + 4) % 7 == 1;
    assert day + 4 == 7 * ((day + 4) / 7) + 1;
    assert day + k + 4 == 7 * ((day + 4) / 7) + (k + 1);
  }

  /** The Monday that starts the Monday-to-Sunday week of `t`, at 00:00. */
  predicate IsWeekStartOf(r: Instant, t: Instant) {
    && r.ms == 0
    && IsoWeekday(r.day) == 1
    && r.day <= t.day < r.day + 7
  }

  lemma {:induction false} WeekStartUnique(r1: Instant, r2: Instant, t: Instant)
    requires IsWeekStartOf(r1, t) && IsWeekStartOf(r2, t)
    ensures r1 == r2
  {
    if r1.day < r2.day {
      IsoWeekdayShift(r1.day, r2.day - r1.day);
    } else if r2.day < r1.day {
      IsoWeekdayShift(r2.day, r1.day - r2.day);
    }
  }

  /** The day `day - (IsoWeekday(day) - 1)`: the Monday of the day's week. */
  function MondayOf(day: int): (m: int)
    ensures IsoWeekday(m) == 1
    ensures m <= day < m + 7
    ensures IsoWeekday(day) == day - m + 1
  {
    var m := day - (IsoWeekday(day) - 1);
    assert (m + 4) % 7 == 1 by {
      assert day + 4 == 7 * ((day + 4) / 7) + (day + 4) % 7;
    }
    m
  }

  // ---------------------------------------------------------------------------
  // Years

  predicate IsLeapYear(y: int) {
    y % 4 == 0 && (y % 100 != 0 || y % 400 == 0)
  }

  function DaysInYear(y: int): (n: int)
    ensures n == 365 || n == 366
  {
    if IsLeapYear(y) then 366 else 365
  }

  /** Days from 0001-01-01 to y-01-01 in the proleptic Gregorian calendar. */
  function DaysBeforeYear(y: int): int {
    var p := y - 1;
    365 * p + p / 4 - p / 100 + p / 400
  }

  /** Day number of January 1 of year `y`. */
  function YearStart(y: int): int {
    DaysBeforeYear(y) - DaysBeforeYear(1970)
  }

  lemma DivSteps(p: int)
    ensures (p + 1) / 4 - p / 4 == if (p + 1) % 4 == 0 then 1 else 0
    ensures (p + 1) / 100 - p / 100 == if (p + 1) % 100 == 0 then 1 else 0
    ensures (p + 1) / 400 - p / 400 == if (p + 1) % 400 == 0 then 1 else 0
  {
  }

  lemma {:induction false} MultipleOfProduct(y: int, k: int, a: int, b: int)
    requires a == 4 || a == 100
    requires b == 4 || b == 25
    requires y == a * b * k
    ensures y % a == 0
  {
    var m := b * k;
    assert y == a * m;
  }

  lemma {:induction false} DivisibilityChain(y: int)
    ensures y % 400 == 0 ==> y % 100 == 0
    ensures y % 100 == 0 ==> y % 4 == 0
  {
    if y % 400 == 0 {
      MultipleOfProduct(y, y / 400, 100, 4);
    }
    if y % 100 == 0 {
      MultipleOfProduct(y, y / 100, 4, 25);
    }
  }

  /** January 1 of 2024, 2025 and 2026 as day numbers. */
  lemma {:induction false} KnownYearStarts()
    ensures YearStart(2024) == 19723 && YearStart(2025) == 20089 && YearStart(2026) == 20454
  {
    assert 1969 / 4 == 492 && 1969 / 100 == 19 && 1969 / 400 == 4;
    assert DaysBeforeYear(1970) == 719162;
    assert 2023 / 4 == 505 && 2023 / 100 == 20 && 2023 / 400 == 5;
    assert DaysBeforeYear(2024) == 738885;
    assert 2024 / 4 == 506 && 2024 / 100 == 20 && 2024 / 400 == 5;
    assert DaysBeforeYear(2025) == 739251;
    assert 2025 / 4 == 506 && 2025 / 100 == 20 && 2025 / 400 == 5;
    assert DaysBeforeYear(2026) == 739616;
  }

  /** Every year is as long as `DaysInYear` says. */
  lemma {:induction false} YearLength(y: int)
    ensures YearStart(y + 1) == YearStart(y) + DaysInYear(y)
  {
    var p := y - 1;
    DivSteps(p);
    DivisibilityChain(y);
    var d4 := if y % 4 == 0 then 1 else 0;
    var d100 := if y % 100 == 0 then 1 else 0;
    var d400 := if y % 400 == 0 then 1 else 0;
    assert DaysBeforeYear(y + 1) - DaysBeforeYear(y) == 365 + d4 - d100 + d400;
  }

  lemma {:induction false} YearStartMonotone(a: int, b: int)
    requires a < b
    ensures YearStart(a) + 365 * (b - a) <= YearStart(b)
    decreases b - a
  {
    YearLength(a);
    if a + 1 < b {
      YearStartMonotone(a + 1, b);
    }
  }

  function YearUp(y: int, day: int): (r: int)
    requires YearStart(y) <= day
    ensures y <= r
    ensures YearStart(r) <= day < YearStart(r + 1)
    decreases day - YearStart(y)
  {
    YearLength(y);
    if day < YearStart(y + 1) then y else YearUp(y + 1, day)
  }

  function YearDown(y: int, day: int): (r: int)
    requires day < YearStart(y + 1)
    ensures r <= y
    ensures YearStart(r) <= day < YearStart(r + 1)
    decreases YearStart(y + 1) - day
  {
    YearLength(y);
    if YearStart(y) <= day then y else YearDown(y - 1, day)
  }

  /** `getFullYear()`: the calendar year that contains `day`. */
  function YearOf(day: int): (y: int)
    ensures YearStart(y) <= day < YearStart(y + 1)
  {
    if day >= 0 then YearUp(1970, day) else YearDown(1969, day)
  }

  /** If day `a` lies in year `ya` and day `b` in year `yb`, less than a year later, then `yb` is at most `ya + 1`. */
  lemma {:induction false} YearsApart(ya: int, yb: int, a: int, b: int)
    requires YearStart(ya) <= a < YearStart(ya + 1)
    requires YearStart(yb) <= b < YearStart(yb + 1)
    requires b - a < 365
    ensures yb <= ya + 1
  {
    if yb > ya + 1 {
      YearStartMonotone(ya + 1, yb);
    }
  }

  /** A year is pinned down by any day it contains. */
  lemma {:induction false} YearOfUnique(y: int, day: int)
    requires YearStart(y) <= day < YearStart(y + 1)
    ensures YearOf(day) == y
  {
    var z := YearOf(day);
    assert YearStart(z) <= day < YearStart(z + 1);
    if z + 1 < y {
      YearStartMonotone(z + 1, y);
    } else if y + 1 < z {
      YearStartMonotone(y + 1, z);
    }
  }

  /** Days shifted by at most `k < 365` land at most one calendar year away. */
  lemma {:induction false} YearOfNear(a: int, b: int)
    requires -365 < b - a < 365
    ensures YearOf(a) - 1 <= YearOf(b) <= YearOf(a) + 1
  {
    YearsApart(YearOf(a), YearOf(b), a, b);
    YearsApart(YearOf(b), YearOf(a), b, a);
  }

  // ---------------------------------------------------------------------------
  // ISO 8601 week numbers

  /** `Math.ceil(a / 7)` for an integer `a`. */
  function Ceil7(a: int): (r: int)
    ensures 7 * (r - 1) < a <= 7 * r
  {
    (a + 6) / 7
  }

  /** The Thursday of the Monday-to-Sunday week of `day`. */
  function ThursdayOf(day: int): (th: int)
    ensures th == MondayOf(day) + 3
  {
    day + 4 - IsoWeekday(day)
  }

  /**
   * `getWeekNumber`: the time of day is dropped, the date moves to the
   * Thursday of its week, and the week number counts weeks from January 1
   * of that Thursday's year (ISO 8601 week dates).
   */
  function WeekNumber(t: Instant): (w: int)
    ensures 1 <= w <= 53
  {
    var th := ThursdayOf(StartOfDay(t).day);
    var jan1 := YearStart(YearOf(th));
    YearLength(YearOf(th));
    Ceil7((th - jan1) + 1)
  }

  /** The week number of a day whose Thursday is known to fall in year `y`. */
  lemma {:induction false} WeekNumberIn(day: int, ms: TimeOfDay, y: int)
    requires YearStart(y) <= ThursdayOf(day) < YearStart(y + 1)
    ensures WeekNumber(Instant(day, ms)) == Ceil7(ThursdayOf(day) - YearStart(y) + 1)
    ensures IsoWeekYear(Instant(day, ms)) == y
  {
    YearOfUnique(y, ThursdayOf(day));
  }

  /** The ISO week-numbering year: the calendar year of the week's Thursday. */
  function IsoWeekYear(t: Instant): int {
    YearOf(ThursdayOf(t.day))
  }

  /** `getFullYear()` of an instant. */
  function CalendarYear(t: Instant): (r: int)
    ensures YearStart(r) <= t.day < YearStart(r + 1)
  {
    YearOf(t.day)
  }

  /** The week number ignores the time of day. */
  lemma TimeOfDayIrrelevant(t: Instant, u: Instant)
    requires t.day == u.day
    ensures WeekNumber(t) == WeekNumber(u)
    ensures IsoWeekYear(t) == IsoWeekYear(u)
  {
  }

  /** Monday through the following Sunday share one week number and one ISO year. */
  lemma {:induction false} WeekConstancy(monday: int, k: int, ms: TimeOfDay, ms': TimeOfDay)
    requires IsoWeekday(monday) == 1 && 0 <= k < 7
    ensures WeekNumber(Instant(monday + k, ms)) == WeekNumber(Instant(monday, ms'))
    ensures IsoWeekYear(Instant(monday + k, ms)) == IsoWeekYear(Instant(monday, ms'))
  {
    IsoWeekdayShift(monday, k);
    assert ThursdayOf(monday + k) == ThursdayOf(monday);
  }

  lemma {:induction false} Ceil7Close(x: int, z: int)
    requires Ceil7(x) == Ceil7(z)
    ensures -7 < x - z < 7
  {
  }

  /** Two Mondays less than a week apart are the same day. */
  lemma {:induction false} MondaysApart(ma: int, mb: int)
    requires IsoWeekday(ma) == 1 && IsoWeekday(mb) == 1
    requires -7 < ma - mb < 7
    ensures ma == mb
  {
    var qa, qb := (ma + 4) / 7, (mb + 4) / 7;
    assert ma + 4 == 7 * qa + 1 && mb + 4 == 7 * qb + 1;
    assert ma - mb == 7 * (qa - qb);
  }

  /** A week number together with the ISO week-numbering year identifies one Monday-to-Sunday week. */
  lemma {:induction false} IsoKeyIdentifiesWeek(a: Instant, b: Instant)
    requires WeekNumber(a) == WeekNumber(b) && IsoWeekYear(a) == IsoWeekYear(b)
    ensures MondayOf(a.day) == MondayOf(b.day)
  {
    var y := IsoWeekYear(a);
    var ta, tb := ThursdayOf(a.day), ThursdayOf(b.day);
    WeekNumberIn(a.day, a.ms, y);
    WeekNumberIn(b.day, b.ms, y);
    Ceil7Close(ta - YearStart(y) + 1, tb - YearStart(y) + 1);
    MondaysApart(MondayOf(a.day), MondayOf(b.day));
  }

  /** Two Mondays are a whole number of weeks apart. */
  lemma {:induction false} MondaysWeeksApart(ma: int, mb: int)
    requires IsoWeekday(ma) == 1 && IsoWeekday(mb) == 1
    ensures ma - mb == 7 * ((ma - mb) / 7)
  {
    var qa, qb := (ma + 4) / 7, (mb + 4) / 7;
    assert ma + 4 == 7 * qa + 1 && mb + 4 == 7 * qb + 1;
    assert ma - mb == 7 * (qa - qb);
  }

  /**
   * The ISO 8601 rule, stated without the Thursday: week 1 of the ISO year is
   * the week that contains 4 January, and the week number of a date is one
   * more than the number of whole weeks from that week's Monday to the
   * Monday of the date's week.
   */
  lemma {:induction false} WeekNumberIsoRule(t: Instant)
    ensures var first := MondayOf(YearStart(IsoWeekYear(t)) + 3);
      && MondayOf(t.day) >= first
      && (MondayOf(t.day) - first) % 7 == 0
      && WeekNumber(t) == (MondayOf(t.day) - first) / 7 + 1
  {
    var y := IsoWeekYear(t);
    var jan1 := YearStart(y);
    var m := MondayOf(t.day);
    var first := MondayOf(jan1 + 3);
    WeekNumberIn(t.day, t.ms, y);
    MondaysWeeksApart(m, first);
    var k := (m - first) / 7;
    assert m == first + 7 * k;
    assert jan1 <= first + 3 <= jan1 + 6;
    assert ThursdayOf(t.day) - jan1 + 1 == 7 * k + (first + 4 - jan1);
    assert k >= 0;
    assert Ceil7(7 * k + (first + 4 - jan1)) == k + 1;
  }

  /** The ISO week-numbering year is the previous, the same or the next calendar year. */
  lemma {:induction false} IsoYearNearCalendarYear(t: Instant)
    ensures CalendarYear(t) - 1 <= IsoWeekYear(t) <= CalendarYear(t) + 1
  {
    YearOfNear(t.day, ThursdayOf(t.day));
  }

  // ---------------------------------------------------------------------------
  // Months

  function DaysInMonth(y: int, m: int): (n: int)
    requires 1 <= m <= 12
    ensures 28 <= n <= 31
  {
    if m == 2 then (if IsLeapYear(y) then 29 else 28)
    else if m == 4 || m == 6 || m == 9 || m == 11 then 30
    else 31
  }

  /** Days from January 1 of `y` to the first day of month `m` (13 stands for the next January). */
  function DaysBeforeMonth(y: int, m: int): (n: int)
    requires 1 <= m <= 13
    ensures 0 <= n
    ensures m == 1 ==> n == 0
  {
    if m == 1 then 0 else DaysBeforeMonth(y, m - 1) + DaysInMonth(y, m - 1)
  }

  lemma {:induction false} MonthsFillYear(y: int)
    ensures DaysBeforeMonth(y, 13) == DaysInYear(y)
  {
    var feb := DaysInMonth(y, 2);
    assert DaysBeforeMonth(y, 3) == 31 + feb;
    assert DaysBeforeMonth(y, 5) == 92 + feb;
    assert DaysBeforeMonth(y, 7) == 153 + feb;
    assert DaysBeforeMonth(y, 9) == 215 + feb;
    assert DaysBeforeMonth(y, 11) == 276 + feb;
    assert DaysBeforeMonth(y, 13) == 337 + feb;
  }

  lemma {:induction false} DaysBeforeMonthMonotone(y: int, m: int, n: int)
    requires 1 <= m <= n <= 13
    ensures DaysBeforeMonth(y, m) + 28 * (n - m) <= DaysBeforeMonth(y, n)
    decreases n - m
  {
    if m < n {
      DaysBeforeMonthMonotone(y, m, n - 1);
    }
  }

  /** Day number of the first of month `m` (1..12) of year `y`. */
  function FirstOfMonth(y: int, m: int): int
    requires 1 <= m <= 12
  {
    YearStart(y) + DaysBeforeMonth(y, m)
  }

  function MonthSearch(y: int, m: int, day: int): (r: int)
    requires 1 <= m <= 12
    requires YearStart(y) <= day < YearStart(y) + DaysBeforeMonth(y, m + 1)
    ensures 1 <= r <= m
    ensures FirstOfMonth(y, r) <= day < FirstOfMonth(y, r) + DaysInMonth(y, r)
    decreases m
  {
    if FirstOfMonth(y, m) <= day then m else MonthSearch(y, m - 1, day)
  }

  /** `getMonth() + 1`: the month (1..12) that contains `day`. */
  function MonthOf(day: int): (m: int)
    ensures 1 <= m <= 12
    ensures FirstOfMonth(YearOf(day), m) <= day < FirstOfMonth(YearOf(day), m) + DaysInMonth(YearOf(day), m)
  {
    var y := YearOf(day);
    YearLength(y);
    MonthsFillYear(y);
    MonthSearch(y, 12, day)
  }

  /** The first day of month `m` lies in year `y` and in month `m`. */
  lemma {:induction false} MonthOfFirst(y: int, m: int)
    requires 1 <= m <= 12
    ensures YearOf(FirstOfMonth(y, m)) == y
    ensures MonthOf(FirstOfMonth(y, m)) == m
  {
    var d := FirstOfMonth(y, m);
    DaysBeforeMonthMonotone(y, m, 13);
    MonthsFillYear(y);
    YearLength(y);
    YearOfUnique(y, d);
    var k := MonthOf(d);
    if k < m {
      DaysBeforeMonthMonotone(y, k + 1, m);
      assert false;
    }
    if m < k {
      DaysBeforeMonthMonotone(y, m + 1, k);
      assert false;
    }
  }

  /** A day lies in month `m` of year `y` exactly when it falls between that month's first day and the next month's. */
  lemma {:induction false} InMonthIff(day: int, y: int, m: int)
    requires 1 <= m <= 12
    ensures FirstOfMonth(y, m) <= day < FirstOfMonth(y, m) + DaysInMonth(y, m)
            <==> YearOf(day) == y && MonthOf(day) == m
  {
    if FirstOfMonth(y, m) <= day < FirstOfMonth(y, m) + DaysInMonth(y, m) {
      DaysBeforeMonthMonotone(y, m + 1, 13);
      MonthsFillYear(y);
      YearLength(y);
      YearOfUnique(y, day);
      var k := MonthOf(day);
      if k < m {
        DaysBeforeMonthMonotone(y, k + 1, m);
        assert false;
      }
      if m < k {
        DaysBeforeMonthMonotone(y, m + 1, k);
        assert false;
      }
    }
  }

  /**
   * `new Date(year, monthIndex, 1)` at 00:00: a zero-based month index outside
   * 0..11 rolls over into neighbouring years (see `DateOfMonthStartMonth`).
   */
  function DateOfMonthStart(year: int, monthIndex: int): (r: Instant)
    ensures r.ms == 0
  {
    var y := year + monthIndex / 12;
    var m := monthIndex % 12 + 1;
    Instant(FirstOfMonth(y, m), 0)
  }

  /**
   * `new Date(year, monthIndex, 1)` is the first day of month
   * `monthIndex % 12 + 1` of year `year + monthIndex / 12`.
   */
  lemma {:induction false} DateOfMonthStartMonth(year: int, monthIndex: int)
    ensures var r := DateOfMonthStart(year, monthIndex);
      && YearOf(r.day) == year + monthIndex / 12
      && MonthOf(r.day) == monthIndex % 12 + 1
      && r.day == FirstOfMonth(YearOf(r.day), MonthOf(r.day))
  {
    var y, m := year + monthIndex / 12, monthIndex % 12 + 1;
    assert DateOfMonthStart(year, monthIndex) == Instant(FirstOfMonth(y, m), 0);
    MonthOfFirst(y, m);
  }

  lemma DateOfMonthStartInYear(year: int, monthIndex: int)
    requires 0 <= monthIndex < 12
    ensures DateOfMonthStart(year, monthIndex) == Instant(FirstOfMonth(year, monthIndex + 1), 0)
  {
    assert monthIndex / 12 == 0 && monthIndex % 12 == monthIndex;
  }

  /** Month index -1 is December of the year before. */
  lemma DateOfMonthStartBeforeJanuary(year: int)
    ensures DateOfMonthStart(year, -1) == Instant(FirstOfMonth(year - 1, 12), 0)
  {
  }

  /** December runs up to January 1 of the next year. */
  lemma {:induction false} DecemberEndsYear(y: int)
    ensures FirstOfMonth(y + 1, 1) - FirstOfMonth(y, 12) == DaysInMonth(y, 12)
  {
    YearLength(y);
    MonthsFillYear(y);
  }

  /** The year and month (1..12) before month `m` of year `y`. */
  function MonthBefore(y: int, m: int): (int, int)
    requires 1 <= m <= 12
  {
    if m == 1 then (y - 1, 12) else (y, m - 1)
  }

  /** Inside one year, month `m` starts exactly the length of month `m - 1` after it. */
  lemma {:induction false} MonthFollows(y: int, m: int)
    requires 2 <= m <= 12
    ensures DateOfMonthStart(y, m - 2) == Instant(FirstOfMonth(y, m - 1), 0)
    ensures FirstOfMonth(y, m) - FirstOfMonth(y, m - 1) == DaysInMonth(y, m - 1)
  {
    DateOfMonthStartInYear(y, m - 2);
  }

  /** January starts exactly the length of the previous December after it. */
  lemma {:induction false} JanuaryFollows(y: int)
    ensures DateOfMonthStart(y, -1) == Instant(FirstOfMonth(y - 1, 12), 0)
    ensures FirstOfMonth(y, 1) - FirstOfMonth(y - 1, 12) == DaysInMonth(y - 1, 12)
  {
    DateOfMonthStartBeforeJanuary(y);
    DecemberEndsYear(y - 1);
  }

  /**
   * Month indices `m - 1` and `m - 2` of `new Date(y, index, 1)` are the
   * first of month `m` and the first of the month before, which is exactly
   * that month's length earlier.
   */
  lemma {:induction false} MonthStartAndBefore(y: int, m: int, py: int, pm: int)
    requires 1 <= m <= 12
    requires (py, pm) == MonthBefore(y, m)
    ensures 1 <= pm <= 12
    ensures DateOfMonthStart(y, m - 1) == Instant(FirstOfMonth(y, m), 0)
    ensures DateOfMonthStart(y, m - 2) == Instant(FirstOfMonth(py, pm), 0)
    ensures FirstOfMonth(y, m) - FirstOfMonth(py, pm) == DaysInMonth(py, pm)
  {
    DateOfMonthStartInYear(y, m - 1);
    if m == 1 {
      JanuaryFollows(y);
    } else {
      MonthFollows(y, m);
    }
  }

  /** ISO 8601 week numbers of two dates: the turn of 2024 into 2025 starts week 1 of 2025 on 30 December 2024. */
  lemma {:induction false} WeekOfDecember30th2024()
    ensures WeekNumber(Instant(20087, 0)) == 1
    ensures CalendarYear(Instant(20087, 0)) == 2024
    ensures IsoWeekYear(Instant(20087, 0)) == 2025
  {
    KnownYearStarts();
    YearOfUnique(2024, 20087);
    assert ThursdayOf(20087) == 20090;
    WeekNumberIn(20087, 0, 2025);
  }
}
