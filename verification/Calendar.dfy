/** The Gregorian calendar, counted day by day from Thursday, 1 January 1970. */
module Calendar {

  datatype Date = Date(year: nat, month: nat, day: nat)

  predicate Leap(y: nat) {
    y % 4 == 0 && (y % 100 != 0 || y % 400 == 0)
  }

  function MonthDays(y: nat, m: nat): nat
    requires 1 <= m <= 12
  {
    if m == 2 then if Leap(y) then 29 else 28
    else if m == 4 || m == 6 || m == 9 || m == 11 then 30
    else 31
  }

  predicate Valid(d: Date) {
    d.year >= 1970 && 1 <= d.month <= 12 && 1 <= d.day <= MonthDays(d.year, d.month)
  }

  function NextDay(d: Date): Date
    requires Valid(d)
  {
    if d.day < MonthDays(d.year, d.month) then d.(day := d.day + 1)
    else if d.month < 12 then Date(d.year, d.month + 1, 1)
    else Date(d.year + 1, 1, 1)
  }

  /** The date `n` days after 1 January 1970. */
  function DayAfterEpoch(n: nat): (d: Date)
    ensures Valid(d)
  {
    if n == 0 then Date(1970, 1, 1) else NextDay(DayAfterEpoch(n - 1))
  }

  /** The weekday of that date, where 0 is Sunday. */
  function WeekdayAfterEpoch(n: nat): nat {
    if n == 0 then 4 else (WeekdayAfterEpoch(n - 1) + 1) % 7
  }

  // ---------- counting back ----------

  function DaysBeforeYear(y: nat): nat
    requires y >= 1970
  {
    if y == 1970 then 0 else DaysBeforeYear(y - 1) + if Leap(y - 1) then 366 else 365
  }

  function DaysBeforeMonth(y: nat, m: nat): nat
    requires 1 <= m <= 12
  {
    if m == 1 then 0 else DaysBeforeMonth(y, m - 1) + MonthDays(y, m - 1)
  }

  /** How many days after 1 January 1970 a date is. */
  function DayNumber(d: Date): nat
    requires Valid(d)
  {
    DaysBeforeYear(d.year) + DaysBeforeMonth(d.year, d.month) + d.day - 1
  }

  /** All the sums over months at once. */
  lemma MonthSums(y: nat)
    ensures var l := if Leap(y) then 1 else 0;
      && DaysBeforeMonth(y, 1) == 0 && DaysBeforeMonth(y, 2) == 31 && DaysBeforeMonth(y, 3) == 59 + l
      && DaysBeforeMonth(y, 4) == 90 + l && DaysBeforeMonth(y, 5) == 120 + l && DaysBeforeMonth(y, 6) == 151 + l
      && DaysBeforeMonth(y, 7) == 181 + l && DaysBeforeMonth(y, 8) == 212 + l && DaysBeforeMonth(y, 9) == 243 + l
      && DaysBeforeMonth(y, 10) == 273 + l && DaysBeforeMonth(y, 11) == 304 + l && DaysBeforeMonth(y, 12) == 334 + l
  {
    assert DaysBeforeMonth(y, 1) == 0;
    assert DaysBeforeMonth(y, 2) == 31;
    assert DaysBeforeMonth(y, 3) == 31 + MonthDays(y, 2);
    assert DaysBeforeMonth(y, 4) == DaysBeforeMonth(y, 3) + 31;
    assert DaysBeforeMonth(y, 5) == DaysBeforeMonth(y, 4) + 30;
    assert DaysBeforeMonth(y, 6) == DaysBeforeMonth(y, 5) + 31;
    assert DaysBeforeMonth(y, 7) == DaysBeforeMonth(y, 6) + 30;
    assert DaysBeforeMonth(y, 8) == DaysBeforeMonth(y, 7) + 31;
    assert DaysBeforeMonth(y, 9) == DaysBeforeMonth(y, 8) + 31;
    assert DaysBeforeMonth(y, 10) == DaysBeforeMonth(y, 9) + 30;
    assert DaysBeforeMonth(y, 11) == DaysBeforeMonth(y, 10) + 31;
  }

  lemma NextDayCountsOne(d: Date)
    requires Valid(d)
    ensures DayNumber(NextDay(d)) == DayNumber(d) + 1
  {
    if d.day == MonthDays(d.year, d.month) && d.month == 12 {
      MonthSums(d.year);
    }
  }

  lemma {:induction false} DayAfterEpochCounts(n: nat)
    ensures DayNumber(DayAfterEpoch(n)) == n
  {
    if n > 0 {
      DayAfterEpochCounts(n - 1);
      NextDayCountsOne(DayAfterEpoch(n - 1));
    }
  }

  lemma {:induction false} LaterYears(y: nat, y': nat)
    requires 1970 <= y < y'
    ensures DaysBeforeYear(y) + (if Leap(y) then 366 else 365) <= DaysBeforeYear(y')
    decreases y'
  {
    if y < y' - 1 {
      LaterYears(y, y' - 1);
    }
  }

  lemma {:induction false} LaterMonths(y: nat, m: nat, m': nat)
    requires 1 <= m < m' <= 12
    ensures DaysBeforeMonth(y, m) + MonthDays(y, m) <= DaysBeforeMonth(y, m')
    decreases m'
  {
    if m < m' - 1 {
      LaterMonths(y, m, m' - 1);
    }
  }

  /** An earlier date has a smaller number. */
  lemma EarlierIsLess(d: Date, e: Date)
    requires Valid(d) && Valid(e)
    requires d.year < e.year || (d.year == e.year && (d.month < e.month || (d.month == e.month && d.day < e.day)))
    ensures DayNumber(d) < DayNumber(e)
  {
    if d.year < e.year {
      LaterYears(d.year, e.year);
      MonthSums(d.year);
      if d.month < 12 {
        LaterMonths(d.year, d.month, 12);
      }
    } else if d.month < e.month {
      LaterMonths(d.year, d.month, e.month);
    }
  }

  /** So a valid date is known by its number. */
  lemma DayNumberInjective(d: Date, e: Date)
    requires Valid(d) && Valid(e) && DayNumber(d) == DayNumber(e)
    ensures d == e
  {
    if d != e {
      if d.year < e.year || (d.year == e.year && (d.month < e.month || (d.month == e.month && d.day < e.day))) {
        EarlierIsLess(d, e);
      } else {
        EarlierIsLess(e, d);
      }
    }
  }

  lemma {:induction false} WeekdayIsRemainder(n: nat)
    ensures WeekdayAfterEpoch(n) == (4 + n) % 7
  {
    if n > 0 {
      WeekdayIsRemainder(n - 1);
    }
  }
}
