/**
 * Civil dates as JavaScript counts them (section 21.4.1 of ECMA-262): years, months and
 * days on one side, the number of days since 1970-01-01 on the other.
 */
module CivilDates {

  datatype Civil = Civil(year: int, month: int, day: int)

  predicate Leap(y: int) { y % 4 == 0 && (y % 100 != 0 || y % 400 == 0) }

  function DaysInYear(y: int): int { if Leap(y) then 366 else 365 }

  /** DayFromYear of section 21.4.1.3. */
  function DayFromYear(y: int): int {
    365 * (y - 1970) + (y - 1969) / 4 - (y - 1901) / 100 + (y - 1601) / 400
  }

  function DaysInMonth(m: int, leap: bool): int {
    if m == 2 then (if leap then 29 else 28)
    else if m == 4 || m == 6 || m == 9 || m == 11 then 30
    else 31
  }

  function DaysBeforeMonth(m: int, leap: bool): int {
    if m <= 1 then 0 else DaysBeforeMonth(m - 1, leap) + DaysInMonth(m - 1, leap)
  }

  predicate Valid(c: Civil) {
    1 <= c.month <= 12 && 1 <= c.day <= DaysInMonth(c.month, Leap(c.year))
  }

  function DayOf(c: Civil): int {
    DayFromYear(c.year) + DaysBeforeMonth(c.month, Leap(c.year)) + c.day - 1
  }

  /** The year a day falls in, from the mean length of a year and one correction. */
  function YearOf(n: int): int {
    var y := 1970 + (400 * n) / 146097;
    if DayFromYear(y + 1) <= n then y + 1 else if DayFromYear(y) <= n then y else y - 1
  }

  /** Walk through the months of a year from month m, k days being left. */
  function MonthAndDay(k: int, m: int, leap: bool): (int, int)
    decreases 12 - m
  {
    if m >= 12 || k < DaysInMonth(m, leap) then (m, k + 1) else MonthAndDay(k - DaysInMonth(m, leap), m + 1, leap)
  }

  function CivilOf(n: int): Civil {
    var y := YearOf(n);
    var md := MonthAndDay(n - DayFromYear(y), 1, Leap(y));
    Civil(y, md.0, md.1)
  }

  // ---------------------------------------------------------------- years

  lemma Quotient4(x: int) returns (q: int)
    ensures 4 * q <= x < 4 * q + 4 && x / 4 == q && (x % 4 == 0 <==> x == 4 * q)
  {
    q := x / 4;
  }

  lemma Quotient100(x: int) returns (q: int)
    ensures 100 * q <= x < 100 * q + 100 && x / 100 == q && (x % 100 == 0 <==> x == 100 * q)
  {
    q := x / 100;
  }

  lemma Quotient400(x: int) returns (q: int)
    ensures 400 * q <= x < 400 * q + 400 && x / 400 == q && (x % 400 == 0 <==> x == 400 * q)
  {
    q := x / 400;
  }

  /** One more leap day is counted just after a leap year. */
  lemma LeapStep4(y: int)
    ensures (y - 1968) / 4 == (y - 1969) / 4 + (if y % 4 == 0 then 1 else 0)
  {
    var q := Quotient4(y);
    var a := Quotient4(y - 1969);
    var b := Quotient4(y - 1968);
  }

  lemma LeapStep100(y: int)
    ensures (y - 1900) / 100 == (y - 1901) / 100 + (if y % 100 == 0 then 1 else 0)
  {
    var q := Quotient100(y);
    var a := Quotient100(y - 1901);
    var b := Quotient100(y - 1900);
  }

  lemma LeapStep400(y: int)
    ensures (y - 1600) / 400 == (y - 1601) / 400 + (if y % 400 == 0 then 1 else 0)
  {
    var q := Quotient400(y);
    var a := Quotient400(y - 1601);
    var b := Quotient400(y - 1600);
  }

  lemma LeapNesting(y: int)
    ensures y % 400 == 0 ==> y % 100 == 0
    ensures y % 100 == 0 ==> y % 4 == 0
  {
    var a := Quotient400(y);
    var b := Quotient100(y);
    var c := Quotient4(y);
  }

  lemma YearLength(y: int)
    ensures DayFromYear(y + 1) == DayFromYear(y) + DaysInYear(y)
  {
    LeapStep4(y);
    LeapStep100(y);
    LeapStep400(y);
    LeapNesting(y);
  }

  lemma {:induction false} YearsIncrease(y: int, z: int)
    requires y < z
    ensures DayFromYear(y) + DaysInYear(y) <= DayFromYear(z)
    decreases z - y
  {
    YearLength(y);
    if y + 1 < z {
      YearsIncrease(y + 1, z);
    }
  }

  /** 365.2425 days a year, to within two days. */
  lemma MeanYear(y: int)
    ensures 146097 * (y - 1970) - 506 <= 400 * DayFromYear(y) <= 146097 * (y - 1970) + 589
  {
    var a := Quotient4(y - 1969);
    var b := Quotient100(y - 1901);
    var c := Quotient400(y - 1601);
  }

  lemma MeanDays(n: int) returns (q: int)
    ensures q == (400 * n) / 146097 && 146097 * q <= 400 * n < 146097 * q + 146097
  {
    q := (400 * n) / 146097;
  }

  lemma YearContains(n: int)
    ensures DayFromYear(YearOf(n)) <= n < DayFromYear(YearOf(n)) + DaysInYear(YearOf(n))
  {
    var q := MeanDays(n);
    var y := 1970 + q;
    MeanYear(y - 1);
    MeanYear(y + 2);
    YearLength(y - 1);
    YearLength(y);
    YearLength(y + 1);
  }

  lemma YearUnique(n: int, y: int)
    requires DayFromYear(y) <= n < DayFromYear(y) + DaysInYear(y)
    ensures YearOf(n) == y
  {
    YearContains(n);
    if YearOf(n) < y {
      YearsIncrease(YearOf(n), y);
    } else if y < YearOf(n) {
      YearsIncrease(y, YearOf(n));
    }
  }

  // ---------------------------------------------------------------- months

  lemma MonthTable(leap: bool)
    ensures DaysBeforeMonth(12, leap) + 31 == if leap then 366 else 365
  {
    var feb := DaysInMonth(2, leap);
    assert DaysBeforeMonth(2, leap) == 31;
    assert DaysBeforeMonth(3, leap) == 31 + feb;
    assert DaysBeforeMonth(5, leap) == 92 + feb;
    assert DaysBeforeMonth(7, leap) == 153 + feb;
    assert DaysBeforeMonth(9, leap) == 215 + feb;
    assert DaysBeforeMonth(11, leap) == 276 + feb;
  }

  lemma {:induction false} MonthContains(k: int, m: int, leap: bool)
    requires 1 <= m <= 12 && 0 <= k < DaysBeforeMonth(12, leap) + 31 - DaysBeforeMonth(m, leap)
    ensures var r := MonthAndDay(k, m, leap);
      && m <= r.0 <= 12 && 1 <= r.1 <= DaysInMonth(r.0, leap)
      && DaysBeforeMonth(r.0, leap) + r.1 - 1 == DaysBeforeMonth(m, leap) + k
    decreases 12 - m
  {
    if m < 12 && k >= DaysInMonth(m, leap) {
      MonthContains(k - DaysInMonth(m, leap), m + 1, leap);
    }
  }

  lemma {:induction false} MonthFound(m: int, target: int, day: int, leap: bool)
    requires 1 <= m <= target <= 12 && 1 <= day <= DaysInMonth(target, leap)
    ensures MonthAndDay(DaysBeforeMonth(target, leap) + day - 1 - DaysBeforeMonth(m, leap), m, leap) == (target, day)
    decreases target - m
  {
    hide DaysBeforeMonth, DaysInMonth;
    if m < target {
      MonthsIncrease(m + 1, target, leap);
      NextMonth(m, leap);
      MonthFound(m + 1, target, day, leap);
    }
  }

  lemma NextMonth(m: int, leap: bool)
    requires m >= 1
    ensures DaysBeforeMonth(m + 1, leap) == DaysBeforeMonth(m, leap) + DaysInMonth(m, leap)
  {}

  lemma {:induction false} MonthsIncrease(m: int, target: int, leap: bool)
    requires 1 <= m <= target
    ensures DaysBeforeMonth(m, leap) <= DaysBeforeMonth(target, leap)
    decreases target - m
  {
    if m < target {
      MonthsIncrease(m, target - 1, leap);
    }
  }

  // ---------------------------------------------------------------- both ways

  lemma DayRoundTrip(n: int)
    ensures Valid(CivilOf(n)) && DayOf(CivilOf(n)) == n
  {
    YearContains(n);
    MonthTable(Leap(YearOf(n)));
    MonthContains(n - DayFromYear(YearOf(n)), 1, Leap(YearOf(n)));
  }

  lemma DayWithinYear(c: Civil)
    requires Valid(c)
    ensures DayFromYear(c.year) <= DayOf(c) < DayFromYear(c.year) + DaysInYear(c.year)
  {
    MonthsIncrease(1, c.month, Leap(c.year));
    MonthTable(Leap(c.year));
    if c.month < 12 {
      MonthsIncrease(c.month + 1, 12, Leap(c.year));
    }
  }

  lemma CivilRoundTrip(c: Civil)
    requires Valid(c)
    ensures CivilOf(DayOf(c)) == c
  {
    DayWithinYear(c);
    YearUnique(DayOf(c), c.year);
    MonthFound(1, c.month, c.day, Leap(c.year));
  }

  /** The Gregorian calendar from day 0 on: how long each month is, and which dates there are. */
  lemma MonthsFollow(y: int, m: int, d: int)
    requires 1 <= m <= 12
    ensures DayOf(Civil(1970, 1, 1)) == 0
    ensures var next := if m < 12 then Civil(y, m + 1, 1) else Civil(y + 1, 1, 1);
      var length := DayOf(next) - DayOf(Civil(y, m, 1));
      && length == (if m == 2 then (if y % 4 == 0 && (y % 100 != 0 || y % 400 == 0) then 29 else 28)
                    else if m == 4 || m == 6 || m == 9 || m == 11 then 30 else 31)
      && (Valid(Civil(y, m, d)) <==> 1 <= d <= length)
      && (1 <= d <= length ==> DayOf(Civil(y, m, d)) == DayOf(Civil(y, m, 1)) + d - 1)
  {
    YearLength(y);
    MonthTable(Leap(y));
    NextMonth(m, Leap(y));
  }

  predicate Before(a: Civil, b: Civil) {
    a.year < b.year || (a.year == b.year && (a.month < b.month || (a.month == b.month && a.day < b.day)))
  }

  /** Days count in calendar order. */
  lemma DayOrder(a: Civil, b: Civil)
    requires Valid(a) && Valid(b)
    ensures DayOf(a) < DayOf(b) <==> Before(a, b)
  {
    BeforeCountsLess(a, b);
    BeforeCountsLess(b, a);
  }

  lemma BeforeCountsLess(a: Civil, b: Civil)
    requires Valid(a) && Valid(b)
    ensures Before(a, b) ==> DayOf(a) < DayOf(b)
  {
    if a.year < b.year {
      DayWithinYear(a);
      DayWithinYear(b);
      YearsIncrease(a.year, b.year);
    } else if a.year == b.year && a.month < b.month {
      MonthsIncrease(a.month + 1, b.month, Leap(a.year));
    }
  }

  // ---------------------------------------------------------------- weeks and months

  /** `getUTCDay()`: day 0 was a Thursday. */
  function UtcDay(n: int): int { (n + 4) % 7 }

  /** Monday is 0: `(getUTCDay() + 6) % 7`. */
  function Weekday(n: int): (w: int)
    ensures 0 <= w < 7
  {
    (UtcDay(n) + 6) % 7
  }

  function Monday(n: int): int { n - Weekday(n) }

  lemma Quotient7(x: int) returns (q: int)
    ensures 7 * q <= x < 7 * q + 7
    ensures x % 7 == x - 7 * q
  {
    q := x / 7;
  }

  lemma Remainder7(x: int, q: int)
    requires 7 * q <= x < 7 * q + 7
    ensures x % 7 == x - 7 * q
  {}

  /** Day 4, the 5th of January 1970, was a Monday, and weekdays follow one another. */
  lemma MondayIsZero(n: int)
    ensures DayOf(Civil(1970, 1, 5)) == 4 && Weekday(4) == 0
    ensures Weekday(n + 1) == (if Weekday(n) == 6 then 0 else Weekday(n) + 1)
    ensures Weekday(n) == 0 <==> exists k: int :: n == Mondays(k)
  {
    var q := Quotient7(n + 3);
    var w := n + 3 - 7 * q;
    WeekdayIs(4, 0, 1);
    WeekdayIs(n, w, q);
    if w == 6 { WeekdayIs(n + 1, 0, q + 1); } else { WeekdayIs(n + 1, w + 1, q); }
    if w == 0 { assert n == Mondays(q - 1); }
    if k: int :| n == Mondays(k) { WeekdayIs(n, 0, k + 1); }
  }

  function Mondays(k: int): int { 4 + 7 * k }

  /** Days and weekdays differ by a whole number of weeks, and that fixes the weekday. */
  lemma WeekdayIs(n: int, w: int, q: int)
    requires 0 <= w < 7 && n + 3 == 7 * q + w
    ensures Weekday(n) == w
  {
    if w == 6 {
      Remainder7(n + 4, q + 1);
      Remainder7(6, 0);
    } else {
      Remainder7(n + 4, q);
      Remainder7(w + 1 + 6, 1);
    }
  }

  lemma MondayForm(n: int) returns (q: int)
    ensures Monday(n) == 7 * q - 3 && Monday(n) <= n < Monday(n) + 7
  {
    q := Quotient7(n + 3);
    WeekdayIs(n, n + 3 - 7 * q, q);
  }

  function WeekOf(n: int): (week: seq<int>)
    ensures |week| == 7
  {
    seq(7, i => Monday(n) + i)
  }

  /** The seven days from a day's Monday on, and only they, have that Monday. */
  lemma MondayOf(n: int, m: int)
    ensures Weekday(Monday(n)) == 0 && Monday(n) <= n < Monday(n) + 7
    ensures Monday(n) <= m < Monday(n) + 7 <==> Monday(m) == Monday(n)
  {
    var q := MondayForm(n);
    var r := MondayForm(m);
    WeekdayIs(Monday(n), 0, q);
  }

  lemma InWeek(n: int, m: int)
    ensures m in WeekOf(n) <==> Monday(n) <= m < Monday(n) + 7
  {
    if Monday(n) <= m < Monday(n) + 7 {
      assert WeekOf(n)[m - Monday(n)] == m;
    }
  }

  /**
   * Weeks partition the days: a week starts on a Monday and holds its day, and a day is in
   * the week of another exactly when the two have the same week.
   */
  lemma WeeksPartition(a: int, b: int)
    ensures Weekday(WeekOf(a)[0]) == 0 && a in WeekOf(a)
    ensures b in WeekOf(a) <==> WeekOf(a) == WeekOf(b)
  {
    InWeek(a, a);
    InWeek(a, b);
    MondayOf(a, b);
    assert WeekOf(a)[0] == Monday(a) && WeekOf(b)[0] == Monday(b);
  }

  /** `Date.UTC(year, month0, 1)` takes a year of 0 to 99 for one of the twentieth century. */
  function FullYear(year: int): int {
    if 0 <= year <= 99 then 1900 + year else year
  }

  function MonthStart(year: int, month0: int): int
    requires 0 <= month0 < 12
  {
    DayOf(Civil(year, month0 + 1, 1))
  }

  function MonthGrid(year: int, month0: int): (grid: seq<int>)
    requires 0 <= month0 < 12
    ensures |grid| == 42
  {
    var first := MonthStart(FullYear(year), month0);
    seq(42, i => Monday(first) + i)
  }

  /** Six Monday-first weeks. */
  lemma GridIsWeeks(year: int, month0: int, r: int, k: int)
    requires 0 <= month0 < 12 && 0 <= r < 6 && 0 <= k < 7
    ensures var grid := MonthGrid(year, month0); grid[7 * r..7 * r + 7] == WeekOf(grid[7 * r + k])
  {
    hide Monday, FullYear, MonthStart;
    var grid := MonthGrid(year, month0);
    var first := MonthStart(FullYear(year), month0);
    var q := MondayForm(first);
    RowIsWeek(Monday(first) + 7 * r, q + r, k);
    RowOfGrid(grid, Monday(first), r, k);
  }

  lemma RowOfGrid(grid: seq<int>, start: int, r: int, k: int)
    requires |grid| == 42 && (forall i :: 0 <= i < 42 ==> grid[i] == start + i) && 0 <= r < 6 && 0 <= k < 7
    requires Monday(start + 7 * r + k) == start + 7 * r
    ensures grid[7 * r..7 * r + 7] == WeekOf(grid[7 * r + k])
  {
    hide Monday;
    var row, week := grid[7 * r..7 * r + 7], WeekOf(grid[7 * r + k]);
    forall i | 0 <= i < 7 ensures row[i] == week[i] {
      assert row[i] == grid[7 * r + i];
    }
  }

  /** The week of any day among seven that start on a Monday. */
  lemma RowIsWeek(start: int, q: int, k: int)
    requires start == 7 * q - 3 && 0 <= k < 7
    ensures Monday(start + k) == start
  {
    WeekdayIs(start + k, k, q);
  }

  /** Day d of the month asked for is on the grid. */
  predicate Shown(year: int, month0: int, d: int)
    requires 0 <= month0 < 12
  {
    DayOf(Civil(year, month0 + 1, d)) in MonthGrid(year, month0)
  }

  lemma InGrid(year: int, month0: int, n: int)
    requires 0 <= month0 < 12
    ensures var start := Monday(MonthStart(FullYear(year), month0)); n in MonthGrid(year, month0) <==> start <= n < start + 42
  {
    var start := Monday(MonthStart(FullYear(year), month0));
    if start <= n < start + 42 {
      assert MonthGrid(year, month0)[n - start] == n;
    }
  }

  /** The grid shows every day of the month asked for exactly when the year is not 0 to 99. */
  lemma GridHoldsMonthIff(year: int, month0: int)
    requires 0 <= month0 < 12
    ensures (forall d :: 1 <= d <= DaysInMonth(month0 + 1, Leap(year)) ==> Shown(year, month0, d)) <==> !(0 <= year <= 99)
  {
    var first := MonthStart(FullYear(year), month0);
    MondayOf(first, first);
    if 0 <= year <= 99 {
      var c := Civil(year, month0 + 1, 1);
      DayWithinYear(c);
      DayWithinYear(Civil(1900 + year, month0 + 1, 1));
      YearsIncrease(year, year + 1);
      YearsIncrease(year + 1, 1900 + year);
      InGrid(year, month0, DayOf(c));
      assert !Shown(year, month0, 1);
    } else {
      forall d | 1 <= d <= DaysInMonth(month0 + 1, Leap(year)) ensures Shown(year, month0, d) {
        InGrid(year, month0, DayOf(Civil(year, month0 + 1, d)));
      }
    }
  }
}
