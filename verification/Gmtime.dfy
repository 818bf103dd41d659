/** `ngx_gmtime` of `ngx_times.c`: Gauss' formula against the day-by-day calendar. */
module Gmtime {
  import opened Calendar
  import opened Radix

  /** `ngx_tm_t`, as far as `ngx_gmtime` fills it in. */
  datatype Tm = Tm(sec: nat, min: nat, hour: nat, mday: int, mon: int, year: int, wday: nat)

  const SECONDS_IN_A_DAY: int := 86400
  /** 31 December 9999 */
  const LAST_DAY: int := 2932896

  /** The days of the calculation: those since 1 March of the year 1 BC. */
  function SinceMarch(days: nat): int {
    days - (31 + 28) + 719527
  }

  /** The days from 1 March of the year 1 BC to 1 March of the given year. */
  function MarchDays(year: int): int {
    365 * year + year / 4 - year / 100 + year / 400
  }

  function YearGuess(days: int): int {
    (days + 2) * 400 / (365 * 400 + 100 - 4 + 1)
  }

  /** The year that began last March, and the day of that year. */
  function YearAndDay(days: int): (int, int) {
    var guess := YearGuess(days);
    var yday := days - MarchDays(guess);
    var leap := if guess % 4 == 0 && (guess % 100 != 0 || guess % 400 == 0) then 1 else 0;
    if yday < 0 then (guess - 1, 365 + leap + yday) else (guess, yday)
  }

  /** Year, month and day of the month. */
  function DateFields(year: int, yday: int): (int, int, int) {
    var mon := (yday + 31) * 10 / 306;
    var mday := yday - (367 * mon / 12 - 30) + 1;
    if yday >= 306 then (year + 1, mon - 10, mday) else (year, mon + 2, mday)
  }

  function Gmtime(t: int): Tm {
    var t := if t < 0 then 0 else t;

    var over := t / SECONDS_IN_A_DAY > LAST_DAY;
    var n := if over then LAST_DAY else t / SECONDS_IN_A_DAY;
    var sec := if over then SECONDS_IN_A_DAY - 1 else t % SECONDS_IN_A_DAY;

    var (marchYear, yday) := YearAndDay(SinceMarch(n));
    var (year, mon, mday) := DateFields(marchYear, yday);
    Tm(sec % 3600 % 60, sec % 3600 / 60, sec / 3600, mday, mon, year, (4 + n) % 7)
  }

  /** The guess is the year that began last March, or the one after it. */
  lemma GuessOffByOne(days: int)
    requires days >= 719468
    ensures var y := YearGuess(days); y >= 1969 && MarchDays(y - 1) <= days < MarchDays(y + 1)
  {
  }

  /** Quotients grow by one at the multiples of the divisor. */
  lemma QuotientGrows(y: nat, c: nat)
    requires y > 0 && c > 1
    ensures y / c - (y - 1) / c == if y % c == 0 then 1 else 0
  {
    var q, r := y / c, y % c;
    assert y == q * c + r;
    if r > 0 {
      DivUnique(y - 1, c, q, r - 1);
    } else {
      Distributes(q, 1, c);
      DivUnique(y - 1, c, q - 1, c - 1);
    }
  }

  lemma MultiplesOf400(y: nat)
    ensures y % 400 == 0 ==> y % 100 == 0
    ensures y % 100 == 0 ==> y % 4 == 0
  {
    if y % 400 == 0 {
      DivUnique(y, 100, 4 * (y / 400), 0);
    }
    if y % 100 == 0 {
      DivUnique(y, 4, 25 * (y / 100), 0);
    }
  }

  /** From one March to the next, 29 February counts for the year it lies in. */
  lemma MarchYear(y: nat)
    requires y > 0
    ensures MarchDays(y) - MarchDays(y - 1) == if Leap(y) then 366 else 365
  {
    QuotientGrows(y, 4);
    QuotientGrows(y, 100);
    QuotientGrows(y, 400);
    MultiplesOf400(y);
  }

  /** 1 March of a year, counted in both ways. */
  lemma {:induction false} MarchOfYear(y: nat)
    requires y >= 1970
    ensures DaysBeforeYear(y) + 59 + (if Leap(y) then 1 else 0) == MarchDays(y) - 719468
  {
    if y > 1970 {
      MarchOfYear(y - 1);
      MarchYear(y);
    }
  }

  /** Month and day from the day of a year that begins in March, by the formulas of the source. */
  lemma MonthOfYday(y: nat, yday: nat)
    requires yday < 365 + if Leap(y + 1) then 1 else 0
    requires if yday >= 306 then y >= 1969 else y >= 1970
    ensures var (year, mon, mday) := DateFields(y, yday);
      && year >= 0 && mon >= 0 && mday >= 0 && Valid(Date(year, mon, mday))
      && DayNumber(Date(year, mon, mday)) == MarchDays(y) - 719468 + yday
  {
    if yday >= 306 {
      MonthSums(y + 1);
      MarchOfYear(y + 1);
      MarchYear(y + 1);
    } else {
      MonthSums(y);
      MarchOfYear(y);
    }
  }

  /** The times that `ngx_gmtime` tells apart: 1970 to 9999. */
  predicate InRange(t: int) {
    0 <= t < (LAST_DAY + 1) * SECONDS_IN_A_DAY
  }

  function DateOf(tm: Tm): Date
    requires tm.year >= 0 && tm.mon >= 0 && tm.mday >= 0
  {
    Date(tm.year, tm.mon, tm.mday)
  }

  /** The day of the year is one of that year, and adds up. */
  lemma YearAndDayAddUp(n: nat)
    requires n <= LAST_DAY
    ensures var (y, yday) := YearAndDay(SinceMarch(n));
      && y >= 1969 && 0 <= yday < 365 + (if Leap(y + 1) then 1 else 0)
      && SinceMarch(n) == MarchDays(y) + yday
      && (yday >= 306 || y >= 1970)
  {
    var days := SinceMarch(n);
    var guess := YearGuess(days);
    GuessOffByOne(days);
    MarchYear(guess);
    MarchYear(guess + 1);
    assert MarchDays(1969) == 719162;
  }

  lemma DateFieldsAreCalendar(n: nat)
    requires n <= LAST_DAY
    ensures var (marchYear, yday) := YearAndDay(SinceMarch(n));
      var (year, mon, mday) := DateFields(marchYear, yday);
      year >= 0 && mon >= 0 && mday >= 0 && Date(year, mon, mday) == DayAfterEpoch(n)
  {
    var (marchYear, yday) := YearAndDay(SinceMarch(n));
    YearAndDayAddUp(n);
    MonthOfYday(marchYear, yday);
    var (year, mon, mday) := DateFields(marchYear, yday);
    DayAfterEpochCounts(n);
    DayNumberInjective(Date(year, mon, mday), DayAfterEpoch(n));
  }

  /** Every time of the years 1970 to 9999 gets the date, the clock time and the weekday of the
      day-by-day calendar. */
  lemma GmtimeIsCalendar(t: int)
    requires InRange(t)
    ensures var tm := Gmtime(t);
      var n := t / SECONDS_IN_A_DAY;
      && tm.year >= 0 && tm.mon >= 0 && tm.mday >= 0
      && DateOf(tm) == DayAfterEpoch(n) && tm.wday == WeekdayAfterEpoch(n)
      && tm.hour < 24 && tm.min < 60 && tm.sec < 60
      && tm.hour * 3600 + tm.min * 60 + tm.sec == t % SECONDS_IN_A_DAY
  {
    DateFieldsAreCalendar(t / SECONDS_IN_A_DAY);
    WeekdayIsRemainder(t / SECONDS_IN_A_DAY);
  }

  function SecondsOf(tm: Tm): int
    requires tm.year >= 0 && tm.mon >= 0 && tm.mday >= 0 && Valid(DateOf(tm))
  {
    DayNumber(DateOf(tm)) * SECONDS_IN_A_DAY + tm.hour * 3600 + tm.min * 60 + tm.sec
  }

  /** Converting the broken-down time back gives the time. */
  lemma GmtimeRoundTrip(t: int)
    requires InRange(t)
    ensures var tm := Gmtime(t);
      && tm.year >= 0 && tm.mon >= 0 && tm.mday >= 0 && Valid(DateOf(tm))
      && SecondsOf(tm) == t
  {
    GmtimeIsCalendar(t);
    DayAfterEpochCounts(t / SECONDS_IN_A_DAY);
  }

  /** The last day is the last of the year 9999. */
  lemma LastDay()
    ensures DayAfterEpoch(LAST_DAY) == Date(9999, 12, 31)
  {
    var d := Date(9999, 12, 31);
    MarchOfYear(9999);
    MonthSums(9999);
    DayAfterEpochCounts(LAST_DAY);
    DayNumberInjective(d, DayAfterEpoch(LAST_DAY));
  }

  /** Times before 1970 read as its first second, times after 9999 as its last. */
  lemma GmtimeClamps(t: int)
    requires !InRange(t)
    ensures Gmtime(t) == Gmtime(if t < 0 then 0 else (LAST_DAY + 1) * SECONDS_IN_A_DAY - 1)
  {
    assert t >= 0 ==> t / SECONDS_IN_A_DAY > LAST_DAY;
  }
}
