/** The Gregorian calendar by day numbers: day 0 is Monday 1 January of year 1. */
module Calendar {
  import opened Numbers

  datatype Date = Date(year: int, month: int, day: int)

  predicate IsLeap(y: int) { y % 4 == 0 && (y % 100 != 0 || y % 400 == 0) }

  /** The month's length when February has 28 days. */
  function ShortLength(month: int): int {
    if month == 2 then 28 else if month in {4, 6, 9, 11} then 30 else 31
  }

  function MonthLength(year: int, month: int): int {
    if month == 2 && IsLeap(year) then 29 else ShortLength(month)
  }

  function YearLength(year: int): int { if IsLeap(year) then 366 else 365 }

  predicate ValidDate(d: Date) { 1 <= d.month <= 12 && 1 <= d.day <= MonthLength(d.year, d.month) }

  function NextDay(d: Date): Date {
    if d.day < MonthLength(d.year, d.month) then Date(d.year, d.month, d.day + 1)
    else if d.month < 12 then Date(d.year, d.month + 1, 1)
    else Date(d.year + 1, 1, 1)
  }

  /** The date of day number `n`, one day after the other. */
  function DateOf(n: nat): (d: Date)
    ensures ValidDate(d) && d.year >= 1
  {
    if n == 0 then Date(1, 1, 1) else NextDay(DateOf(n - 1))
  }

  /** Sunday is 0; day 0 is a Monday. */
  function WeekdayOf(n: nat): int { (n + 1) % 7 }

  function DaysBefore(year: int, month: int): int
    requires 1 <= month <= 13
    decreases month
  {
    if month == 1 then 0 else DaysBefore(year, month - 1) + MonthLength(year, month - 1)
  }

  function YearDay(d: Date): int
    requires ValidDate(d)
  {
    DaysBefore(d.year, d.month) + d.day
  }

  /** The days before a month in two years: they differ by the leap days, past February. */
  lemma {:induction false} MonthsAlign(y: int, z: int, month: int)
    requires 1 <= month <= 13
    ensures DaysBefore(z, month) - DaysBefore(y, month)
         == if month <= 2 then 0 else YearLength(z) - YearLength(y)
    ensures month == 13 ==> DaysBefore(y, month) == YearLength(y)
  {
    YearTable(y);
    YearTable(z);
  }

  /** The cumulative table, month by month. */
  lemma YearTable(y: int)
    ensures var leap := YearLength(y) - 365;
      && DaysBefore(y, 1) == 0 && DaysBefore(y, 2) == 31 && DaysBefore(y, 3) == 59 + leap && DaysBefore(y, 4) == 90 + leap
      && DaysBefore(y, 5) == 120 + leap && DaysBefore(y, 6) == 151 + leap && DaysBefore(y, 7) == 181 + leap
      && DaysBefore(y, 8) == 212 + leap && DaysBefore(y, 9) == 243 + leap && DaysBefore(y, 10) == 273 + leap
      && DaysBefore(y, 11) == 304 + leap && DaysBefore(y, 12) == 334 + leap && DaysBefore(y, 13) == 365 + leap
  {
    assert DaysBefore(y, 3) == DaysBefore(y, 2) + MonthLength(y, 2);
    assert DaysBefore(y, 5) == DaysBefore(y, 4) + 30;
    assert DaysBefore(y, 7) == DaysBefore(y, 6) + 30;
    assert DaysBefore(y, 9) == DaysBefore(y, 8) + 31;
    assert DaysBefore(y, 11) == DaysBefore(y, 10) + 31;
  }

  lemma YearDayInjective(a: Date, b: Date)
    requires ValidDate(a) && ValidDate(b) && a.year == b.year && YearDay(a) == YearDay(b)
    ensures a == b
  {
    YearTable(a.year);
  }

  lemma YearDayRange(d: Date)
    requires ValidDate(d)
    ensures 1 <= YearDay(d) <= YearLength(d.year)
    ensures YearDay(NextDay(d)) == if YearDay(d) == YearLength(d.year) then 1 else YearDay(d) + 1
    ensures NextDay(d).year == if YearDay(d) == YearLength(d.year) then d.year + 1 else d.year
  {
    YearTable(d.year);
    assert d.month == 12 ==> DaysBefore(d.year, 12) == 334 + YearLength(d.year) - 365;
    assert DaysBefore(NextDay(d).year, 1) == 0;
  }

  /** Within a year, day numbers and days of the year advance together. */
  lemma {:induction false} WalkInYear(n: nat, j: nat)
    requires YearDay(DateOf(n)) + j <= YearLength(DateOf(n).year)
    ensures DateOf(n + j).year == DateOf(n).year && YearDay(DateOf(n + j)) == YearDay(DateOf(n)) + j
  {
    if j > 0 {
      WalkInYear(n, j - 1);
      YearDayRange(DateOf(n + j - 1));
    }
  }

  lemma WalkTo(n: nat, target: Date)
    requires ValidDate(target) && target.year == DateOf(n).year && YearDay(target) >= YearDay(DateOf(n))
    ensures DateOf(n + (YearDay(target) - YearDay(DateOf(n)))) == target
  {
    YearDayRange(target);
    WalkInYear(n, YearDay(target) - YearDay(DateOf(n)));
    YearDayInjective(DateOf(n + (YearDay(target) - YearDay(DateOf(n)))), target);
  }

  /** The first day of the next year. */
  lemma NextYear(n: nat)
    ensures YearDay(DateOf(n)) <= YearLength(DateOf(n).year)
    ensures DateOf(n + (YearLength(DateOf(n).year) - YearDay(DateOf(n))) + 1) == Date(DateOf(n).year + 1, 1, 1)
  {
    var d := DateOf(n);
    YearDayRange(d);
    var left := YearLength(d.year) - YearDay(d);
    WalkInYear(n, left);
    YearTable(d.year);
    YearDayInjective(DateOf(n + left), Date(d.year, 12, 31));
  }

  /** How far it is from a date to the next day `day` of `month`, a date every year has. */
  function Distance(d: Date, month: int, day: int): (r: int)
    requires ValidDate(d) && 1 <= month <= 12 && 1 <= day <= ShortLength(month)
  {
    var here := YearDay(Date(d.year, month, day));
    if here >= YearDay(d) then here - YearDay(d)
    else YearLength(d.year) - YearDay(d) + YearDay(Date(d.year + 1, month, day))
  }

  lemma {:induction false} DistanceRight(n: nat, month: int, day: int)
    requires 1 <= month <= 12 && 1 <= day <= ShortLength(month)
    ensures var o := Distance(DateOf(n), month, day);
      0 <= o <= 365 && DateOf(n + o).month == month && DateOf(n + o).day == day
  {
    hide DateOf, DaysBefore, IsLeap;
    var d := DateOf(n);
    YearDayRange(d);
    MonthsAlign(d.year, d.year + 1, month);
    var here, there := Date(d.year, month, day), Date(d.year + 1, month, day);
    YearDayRange(here);
    YearDayRange(there);
    if YearDay(here) >= YearDay(d) {
      WalkTo(n, here);
    } else {
      NextYear(n);
      var m := n + (YearLength(d.year) - YearDay(d)) + 1;
      FirstYearDay(d.year + 1);
      WalkTo(m, there);
      assert n + Distance(d, month, day) == m + (YearDay(there) - 1);
    }
  }

  lemma FirstYearDay(year: int)
    ensures YearDay(Date(year, 1, 1)) == 1
  {
  }

  predicate InMonth(n: nat, month: int) { DateOf(n).month == month }

  /** Seven days in a row inside one month. */
  ghost predicate WeekInMonth(n: nat, month: int) {
    forall m: nat :: n <= m <= n + 6 ==> InMonth(m, month)
  }

  lemma WeekFrom(n: nat)
    requires DateOf(n).day <= 22
    ensures WeekInMonth(n, DateOf(n).month)
  {
    hide DateOf, DaysBefore, IsLeap;
    var d := DateOf(n);
    forall m: nat | n <= m <= n + 6 ensures InMonth(m, d.month) {
      var target := Date(d.year, d.month, d.day + (m - n));
      WalkTo(n, target);
      assert YearDay(target) - YearDay(d) == m - n;
    }
  }

  lemma DistanceToFirst(d: Date, month: int)
    requires ValidDate(d) && 1 <= month <= 12
    requires d.month != month || d.day >= 22
    ensures 1 <= Distance(d, month, 1) <= 359
  {
    hide DaysBefore, IsLeap;
    YearTable(d.year);
    YearTable(d.year + 1);
  }

  /** Within 365 days a whole week lies inside any given month. */
  lemma WeekWithin(n: nat, month: int) returns (s: nat)
    requires 1 <= month <= 12
    ensures 1 <= s && s + 6 <= 365 && WeekInMonth(n + s, month)
  {
    hide DaysBefore, IsLeap, Distance, WeekInMonth;
    var d := DateOf(n);
    if d.month == month && d.day <= 21 {
      s := 1;
      assert DateOf(n + 1) == Date(d.year, d.month, d.day + 1);
      WeekFrom(n + 1);
    } else {
      DistanceToFirst(d, month);
      s := Distance(d, month, 1);
      DistanceRight(n, month, 1);
      WeekFrom(n + s);
    }
  }

  lemma WeekdayAhead(n: nat, weekday: int)
    requires 0 <= weekday <= 6
    ensures WeekdayOf(n + (weekday - WeekdayOf(n)) % 7) == weekday
  {
  }

  /** Within 365 days every weekday falls into any given month. */
  lemma WeekdayWithin(n: nat, month: int, weekday: int) returns (o: nat)
    requires 1 <= month <= 12 && 0 <= weekday <= 6
    ensures 1 <= o <= 365 && DateOf(n + o).month == month && WeekdayOf(n + o) == weekday
  {
    hide DateOf, WeekdayOf;
    var s := WeekWithin(n, month);
    var j := (weekday - WeekdayOf(n + s)) % 7;
    o := s + j;
    assert InMonth(n + o, month);
    WeekdayAhead(n + s, weekday);
  }

  lemma ShortYears()
    ensures YearLength(1) == 365 && !IsLeap(1) && !IsLeap(2)
    ensures DateOf(0) == Date(1, 1, 1) && YearDay(Date(1, 1, 1)) == YearDay(Date(2, 1, 1)) == 1
  {
  }

  lemma {:induction false} EarlyYears(n: nat)
    requires n < 730
    ensures DateOf(n).year == 1 || DateOf(n).year == 2
  {
    hide DateOf, DaysBefore, IsLeap, YearDay, MonthLength;
    ShortYears();
    assert YearLength(2) == 365;
    if n < 365 {
      WalkInYear(0, n);
    } else {
      NextYear(0);
      WalkInYear(365, n - 365);
      assert 365 + (n - 365) == n;
    }
  }

  lemma ShortYearDate(d: Date)
    requires ValidDate(d) && (d.year == 1 || d.year == 2)
    ensures d.day <= ShortLength(d.month)
  {
  }

  /** Years 1 and 2 are short, so no 29 February is near day 0. */
  lemma {:induction false} ShortStart(n: nat)
    requires n < 730
    ensures DateOf(n).day <= ShortLength(DateOf(n).month)
  {
    hide *;
    EarlyYears(n);
    ShortYearDate(DateOf(n));
  }

  /** The day number of a year's first day, by the leap rule. */
  function DaysBeforeYear(year: int): int
    requires year >= 1
  {
    365 * (year - 1) + (year - 1) / 4 - (year - 1) / 100 + (year - 1) / 400
  }

  lemma QuotientStep(y: int, k: int)
    requires y >= 1 && k > 1
    ensures y / k - (y - 1) / k == if y % k == 0 then 1 else 0
    ensures (y - 1) / k >= 0
  {
    var q, r := (y - 1) / k, (y - 1) % k;
    assert y == q * k + (r + 1);
    if r + 1 == k {
      assert y == (q + 1) * k;
      QuotientUnique(y, k, q + 1, 0);
    } else {
      QuotientUnique(y, k, q, r + 1);
    }
  }

  lemma LeapStep(y: int)
    requires y >= 1
    ensures DaysBeforeYear(y + 1) == DaysBeforeYear(y) + YearLength(y) && DaysBeforeYear(y) >= 0
  {
    QuotientStep(y, 4);
    QuotientStep(y, 100);
    QuotientStep(y, 400);
    if y % 100 == 0 { QuotientUnique(y, 4, 25 * (y / 100), 0); }
    if y % 400 == 0 { QuotientUnique(y, 100, 4 * (y / 400), 0); }
  }

  lemma FirstDay()
    ensures DaysBeforeYear(1) == 0 && DateOf(0) == Date(1, 1, 1)
  {
  }

  /** Counting days one by one agrees with the closed formula. */
  lemma {:induction false} YearStarts(year: int)
    requires year >= 1
    ensures DaysBeforeYear(year) >= 0 && DateOf(DaysBeforeYear(year)) == Date(year, 1, 1)
    decreases year
  {
    hide DaysBefore, IsLeap, DaysBeforeYear;
    FirstDay();
    if year > 1 {
      FirstYearDay(year - 1);
      YearStarts(year - 1);
      LeapStep(year - 1);
      NextYear(DaysBeforeYear(year - 1));
    }
  }

  lemma DaysTo2000()
    ensures DaysBeforeYear(2000) == 730_119
  {
  }

  /** The days of the week are where they should be: 1 January 2000 was a Saturday. */
  lemma Millennium()
    ensures DateOf(730_119) == Date(2000, 1, 1) && WeekdayOf(730_119) == 6
  {
    hide DateOf, DaysBeforeYear;
    DaysTo2000();
    YearStarts(2000);
  }
}
