/**
 * The proleptic Gregorian calendar that `Date.UTC` and `Intl.DateTimeFormat` share, as a bijection
 * between day numbers (day 0 is 1970-01-01) and dates.  A month is numbered `12 * year + month - 1`.
 */
module Calendar {
  const EPOCH_MONTH := 1970 * 12

  datatype Date = Date(year: int, month: int, day: int)

  predicate IsLeapYear(y: int) { y % 4 == 0 && (y % 100 != 0 || y % 400 == 0) }

  function MonthLength(m: int): (n: nat)
    ensures 28 <= n <= 31
  {
    var month := m % 12 + 1;
    if month == 2 then (if IsLeapYear(m / 12) then 29 else 28)
    else if month in {4, 6, 9, 11} then 30 else 31
  }

  /** The day number of the first day of month `m`. */
  function MonthStart(m: int): int
    decreases if m < EPOCH_MONTH then EPOCH_MONTH - m else m - EPOCH_MONTH
  {
    if m == EPOCH_MONTH then 0
    else if m > EPOCH_MONTH then MonthStart(m - 1) + MonthLength(m - 1)
    else MonthStart(m + 1) - MonthLength(m)
  }

  lemma NextMonthStart(m: int)
    ensures MonthStart(m + 1) == MonthStart(m) + MonthLength(m)
  {
  }

  lemma {:induction false} MonthsAreInOrder(m: int, n: int)
    requires m < n
    ensures MonthStart(m) + 28 * (n - m) <= MonthStart(n)
    decreases n - m
  {
    NextMonthStart(n - 1);
    if m < n - 1 { MonthsAreInOrder(m, n - 1); }
  }

  function MonthFrom(day: int, m: int): (r: int)
    ensures MonthStart(r) <= day < MonthStart(r) + MonthLength(r)
    decreases if day < MonthStart(m) then MonthStart(m) - day
              else if day >= MonthStart(m + 1) then day - MonthStart(m + 1) + 1 else 0
  {
    NextMonthStart(m); NextMonthStart(m - 1); NextMonthStart(m + 1);
    if day < MonthStart(m) then MonthFrom(day, m - 1)
    else if day >= MonthStart(m + 1) then MonthFrom(day, m + 1)
    else m
  }

  /** The month a day number falls in. */
  function MonthOf(day: int): (m: int)
    ensures MonthStart(m) <= day < MonthStart(m) + MonthLength(m)
  {
    MonthFrom(day, EPOCH_MONTH)
  }

  lemma MonthOfIsUnique(day: int, m: int)
    requires MonthStart(m) <= day < MonthStart(m) + MonthLength(m)
    ensures MonthOf(day) == m
  {
    MonthEndsBefore(MonthOf(day), m);
    MonthEndsBefore(m, MonthOf(day));
  }

  lemma MonthEndsBefore(m: int, n: int)
    ensures m < n ==> MonthStart(m) + MonthLength(m) <= MonthStart(n)
  {
    if m < n {
      NextMonthStart(m);
      if m + 1 < n { MonthsAreInOrder(m + 1, n); }
    }
  }

  lemma MonthOfIsMonotone(a: int, b: int)
    requires a <= b
    ensures MonthOf(a) <= MonthOf(b)
  {
    if MonthOf(b) < MonthOf(a) {
      NextMonthStart(MonthOf(b));
      if MonthOf(b) + 1 < MonthOf(a) { MonthsAreInOrder(MonthOf(b) + 1, MonthOf(a)); }
    }
  }

  /** `Date.UTC(year, month - 1, day)` in days: days past the end of the month run on. */
  function DayNumber(d: Date): int { MonthStart(12 * d.year + d.month - 1) + d.day - 1 }

  function DateOf(day: int): Date {
    var m := MonthOf(day);
    Date(m / 12, m % 12 + 1, day - MonthStart(m) + 1)
  }

  predicate ValidDate(d: Date) {
    1 <= d.month <= 12 && 1 <= d.day <= MonthLength(12 * d.year + d.month - 1)
  }

  lemma DateRoundTrip(d: Date)
    requires ValidDate(d)
    ensures DateOf(DayNumber(d)) == d
  {
    MonthOfIsUnique(DayNumber(d), 12 * d.year + d.month - 1);
  }

  lemma DayRoundTrip(day: int)
    ensures ValidDate(DateOf(day)) && DayNumber(DateOf(day)) == day
  {
    var m := MonthOf(day);
    assert 12 * (m / 12) + m % 12 == m;
  }

  // ----- the Gregorian calendar in closed form -----

  /** Days in the years before year `y`, counted from 1 March of year 0. */
  function YearDays(y: int): int { 365 * y + y / 4 - y / 100 + y / 400 }

  /** Days in the first `n` months from 1 March. */
  function MonthDays(n: int): int { (153 * n + 2) / 5 }

  /** Days from 1970-01-01 to a date, by division alone.  Years are counted from March, so that a leap day is the last
      day of its year; 719468 days lie between 1 March of year 0 and 1970-01-01. */
  function CivilDays(year: int, month: int, day: int): int {
    day - 1 - 719468
    + if month <= 2 then YearDays(year - 1) + MonthDays(month + 9) else YearDays(year) + MonthDays(month - 3)
  }

  /** The first day of the next month. */
  function NextFirst(year: int, month: int): int {
    if month == 12 then CivilDays(year + 1, 1, 1) else CivilDays(year, month + 1, 1)
  }

  lemma Steps(y: int, n: int)
    requires n == 4 || n == 100 || n == 400
    ensures y / n - (y - 1) / n == if y % n == 0 then 1 else 0
  {
  }

  lemma YearStep(y: int)
    ensures YearDays(y) - YearDays(y - 1) == if IsLeapYear(y) then 366 else 365
  {
    Steps(y, 4);
    Steps(y, 100);
    Steps(y, 400);
    Centuries(y, y / 400);
    Fours(y, y / 100);
  }

  lemma Centuries(y: int, q: int)
    ensures y == 400 * q ==> y % 100 == 0
  {
    if y == 400 * q { assert y == 100 * (4 * q); }
  }

  lemma Fours(y: int, q: int)
    ensures y == 100 * q ==> y % 4 == 0
  {
    if y == 100 * q { assert y == 4 * (25 * q); }
  }

  /** April is month 1 from March, and June, September and November are 3, 6 and 8. */
  lemma MonthStep(n: int)
    requires 0 <= n <= 10
    ensures MonthDays(n + 1) - MonthDays(n) == if n == 1 || n == 3 || n == 6 || n == 8 then 30 else 31
  {
  }

  lemma LengthIs(m: int, year: int, month: int)
    requires m == 12 * year + month - 1 && 1 <= month <= 12
    ensures m / 12 == year && m % 12 == month - 1
    ensures MonthLength(m) ==
      if month == 2 then (if IsLeapYear(year) then 29 else 28)
      else if month == 4 || month == 6 || month == 9 || month == 11 then 30 else 31
  {
  }

  /** The formula moves on by the length of the month. */
  lemma CivilStep(m: int, year: int, month: int)
    requires m == 12 * year + month - 1 && 1 <= month <= 12
    ensures NextFirst(year, month) == CivilDays(year, month, 1) + MonthLength(m)
  {
    LengthIs(m, year, month);
    if month == 2 {
      YearStep(year);
      assert MonthDays(11) == 337 && MonthDays(0) == 0;
    } else if month == 1 {
      MonthStep(10);
    } else {
      MonthStep(month - 3);
    }
  }

  lemma {:induction false} MonthStartIs(m: int, year: int, month: int)
    requires m == 12 * year + month - 1 && 1 <= month <= 12
    ensures MonthStart(m) == CivilDays(year, month, 1)
    decreases if m < EPOCH_MONTH then EPOCH_MONTH - m else m - EPOCH_MONTH
  {
    if m > EPOCH_MONTH {
      var y, k := if month == 1 then year - 1 else year, if month == 1 then 12 else month - 1;
      MonthStartIs(m - 1, y, k);
      CivilStep(m - 1, y, k);
      assert NextFirst(y, k) == CivilDays(year, month, 1);
    } else if m < EPOCH_MONTH {
      MonthStartIs(m + 1, if month == 12 then year + 1 else year, if month == 12 then 1 else month + 1);
      CivilStep(m, year, month);
    } else {
      assert year == 1970 && month == 1;
    }
  }

  /** The day number of every date, and which dates there are, are those of the Gregorian calendar. */
  lemma DayNumberIsCivil(d: Date)
    requires 1 <= d.month <= 12
    ensures DayNumber(d) == CivilDays(d.year, d.month, d.day)
    ensures ValidDate(d) <==> 1 <= d.day && CivilDays(d.year, d.month, d.day) < NextFirst(d.year, d.month)
  {
    var m := 12 * d.year + d.month - 1;
    MonthStartIs(m, d.year, d.month);
    CivilStep(m, d.year, d.month);
  }

  /** 0 is Sunday; 1970-01-01 was a Thursday. */
  function Weekday(day: int): int { (day + 4) % 7 }

  /** Four hundred years are 146097 days. */
  lemma CivilRepeats(year: int, month: int, day: int)
    ensures CivilDays(year + 400, month, day) == CivilDays(year, month, day) + 146097
  {
    YearsRepeat(year);
    YearsRepeat(year - 1);
  }

  lemma YearsRepeat(y: int)
    ensures YearDays(y + 400) == YearDays(y) + 146097
  {
    assert (y + 400) / 4 == y / 4 + 100 && (y + 400) / 100 == y / 100 + 4 && (y + 400) / 400 == y / 400 + 1;
  }

  /** They are whole weeks. */
  lemma WeekdayRepeats(day: int)
    ensures Weekday(day + 146097) == Weekday(day)
  {
    assert 146097 == 7 * 20871;
  }

  /** The calendar repeats every four hundred years, weekdays and leap days included. */
  lemma CalendarRepeats(d: Date, later: Date)
    requires 1 <= d.month <= 12 && later == Date(d.year + 400, d.month, d.day)
    ensures DayNumber(later) == DayNumber(d) + 146097
    ensures Weekday(DayNumber(later)) == Weekday(DayNumber(d))
    ensures ValidDate(later) <==> ValidDate(d)
  {
    DayNumberIsCivil(d);
    DayNumberIsCivil(later);
    CivilRepeats(d.year, d.month, d.day);
    WeekdayRepeats(DayNumber(d));
    LengthRepeats(12 * d.year + d.month - 1, d.year, d.month);
  }

  lemma LengthRepeats(m: int, year: int, month: int)
    requires m == 12 * year + month - 1 && 1 <= month <= 12
    ensures MonthLength(m + 4800) == MonthLength(m)
  {
    LengthIs(m, year, month);
    LengthIs(m + 4800, year + 400, month);
    Shift(year, 4, 100);
    Shift(year, 100, 4);
    Shift(year, 400, 1);
  }

  lemma Shift(y: int, n: int, k: int)
    requires (n == 4 && k == 100) || (n == 100 && k == 4) || (n == 400 && k == 1)
    ensures (y + 400) % n == y % n
  {
    assert (y + 400) / n == y / n + k;
  }

  /** Monday 15 June 2026. */
  lemma KnownMonday(d: Date)
    requires d == Date(2026, 6, 15)
    ensures DayNumber(d) == 20619 && Weekday(DayNumber(d)) == 1
  {
    DayNumberIsCivil(d);
  }

  /** The century years have a leap day exactly when 400 divides them. */
  lemma CenturyLeapDays(d: Date)
    requires d.month == 2 && d.day == 29 && d.year % 100 == 0
    ensures ValidDate(d) <==> d.year % 400 == 0
  {
    LengthIs(12 * d.year + 1, d.year, 2);
  }
}
