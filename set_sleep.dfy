/** The time conversion of the set_sleep_syscall user program: a date read from the CMOS
    clock becomes the number of seconds since 2000-01-01 00:00:00, so that the difference
    of two readings is the time slept. */
module SetSleep {
  import opened CLang

  const FirstYear: int := 2000
  const SecondsPerDay: int := 24 * 3600

  /** A clock reading; the fields are unsigned in the C struct. */
  datatype RtcDate = RtcDate(second: nat, minute: nat, hour: nat, day: nat, month: nat, year: nat)

  predicate IsLeapYear(year: int) {
    year % 4 == 0 && (year % 100 != 0 || year % 400 == 0)
  }

  /** The length of each month in a common year; index 0 is unused. */
  const DaysPerMonth: seq<int> := [0, 31, 28, 31, 30, 31, 30, 31, 31, 30, 31, 30, 31]

  function YearLength(year: int): (r: int)
    ensures r == 365 || r == 366
    ensures r == 366 <==> IsLeapYear(year)
  {
    if IsLeapYear(year) then 366 else 365
  }

  /** The days of the whole years from 2000 up to, not including, year. */
  function DaysBeforeYear(year: int): int
    decreases year - FirstYear
  {
    if year <= FirstYear then 0 else DaysBeforeYear(year - 1) + YearLength(year - 1)
  }

  /** The days of the months of year before month. */
  function DaysBeforeMonth(month: nat, year: int): int
    requires month <= |DaysPerMonth|
  {
    if month <= 1 then 0
    else DaysBeforeMonth(month - 1, year) + DaysPerMonth[month - 1] + (if month - 1 == 2 && IsLeapYear(year) then 1 else 0)
  }

  /** The seconds since 2000-01-01 00:00:00, in unbounded integers. */
  function ExactSeconds(t: RtcDate): int
    requires t.month <= |DaysPerMonth|
  {
    (DaysBeforeYear(t.year) + DaysBeforeMonth(t.month, t.year) + t.day - 1) * SecondsPerDay
      + t.hour * 3600 + t.minute * 60 + t.second
  }

  /** convert_time_to_second: the year loop, the month loop and the day, hour, minute and
      second terms, computed in C ints. The month table has 13 entries, so month is at most
      13; gcc's wrap-around of the final sum is the 32-bit reduction of the exact value. */
  method ConvertTimeToSecond(t: RtcDate) returns (total: int)
    requires t.month <= |DaysPerMonth|
    ensures total == ToInt32(ExactSeconds(t))
  {
    var days := 0;
    var years := FirstYear;
    while years < t.year
      invariant FirstYear <= years && (t.year >= FirstYear ==> years <= t.year)
      invariant t.year < FirstYear ==> years == FirstYear
      invariant days == DaysBeforeYear(years)
      decreases t.year - years
    {
      if IsLeapYear(years) {
        days := days + 366;
      } else {
        days := days + 365;
      }
      years := years + 1;
    }
    if t.year < FirstYear {
      assert years == FirstYear && DaysBeforeYear(t.year) == 0 == DaysBeforeYear(years);
    } else {
      assert years == t.year;
    }
    assert DaysBeforeMonth(1, t.year) == 0;
    var i := 1;
    while i < t.month
      invariant 1 <= i <= |DaysPerMonth| && (t.month >= 1 ==> i <= t.month) && (t.month == 0 ==> i == 1)
      invariant days == DaysBeforeYear(t.year) + DaysBeforeMonth(i, t.year)
    {
      days := days + DaysPerMonth[i];
      if i == 2 && IsLeapYear(t.year) {
        days := days + 1;
      }
      i := i + 1;
    }
    assert DaysBeforeMonth(i, t.year) == DaysBeforeMonth(t.month, t.year);
    days := days + t.day - 1;
    assert days * 24 * 3600 == days * SecondsPerDay;
    total := ToInt32(days * 24 * 3600 + t.hour * 3600 + t.minute * 60 + t.second);
  }

  /** The start of 2000 is second 0. */
  lemma EpochIsZero()
    ensures ExactSeconds(RtcDate(0, 0, 0, 1, 1, 2000)) == 0
  {
  }

  /** The months of a year add up to its length, so the second after the last one of a year
      is the first one of the next. */
  lemma {:induction false} YearEndMeetsNextYear(year: int)
    requires year >= FirstYear
    ensures ExactSeconds(RtcDate(59, 59, 23, 31, 12, year)) + 1 == ExactSeconds(RtcDate(0, 0, 0, 1, 1, year + 1))
  {
    DaysBeforeDecember(year);
    var d := DaysBeforeYear(year) + DaysBeforeMonth(12, year) + 30;
    assert DaysBeforeYear(year + 1) == d + 1;
    assert ExactSeconds(RtcDate(59, 59, 23, 31, 12, year)) == d * SecondsPerDay + 86399;
  }

  /** December starts 334 days into a common year, 335 into a leap year. */
  lemma DaysBeforeDecember(year: int)
    ensures DaysBeforeMonth(12, year) == 334 + (if IsLeapYear(year) then 1 else 0)
  {
    var leap := if IsLeapYear(year) then 1 else 0;
    assert DaysBeforeMonth(2, year) == 31;
    assert DaysBeforeMonth(3, year) == 59 + leap;
    assert DaysBeforeMonth(4, year) == 90 + leap;
    assert DaysBeforeMonth(5, year) == 120 + leap;
    assert DaysBeforeMonth(6, year) == 151 + leap;
    assert DaysBeforeMonth(7, year) == 181 + leap;
    assert DaysBeforeMonth(8, year) == 212 + leap;
    assert DaysBeforeMonth(9, year) == 243 + leap;
    assert DaysBeforeMonth(10, year) == 273 + leap;
    assert DaysBeforeMonth(11, year) == 304 + leap;
  }

  /** The leap years from 2000 to year, exclusive, counted in closed form. */
  function LeapsBefore(year: int): int {
    (year - 1) / 4 - (year - 1) / 100 + (year - 1) / 400 - 484
  }

  lemma LeapStep(y: int)
    requires y >= FirstYear
    ensures LeapsBefore(y + 1) == LeapsBefore(y) + (if IsLeapYear(y) then 1 else 0)
  {
    assert y / 4 == (y - 1) / 4 + (if y % 4 == 0 then 1 else 0);
    Div100Step(y);
    Div400Step(y);
  }

  lemma Div100Step(y: int)
    ensures y / 100 == (y - 1) / 100 + (if y % 100 == 0 then 1 else 0)
  {
  }

  lemma Div400Step(y: int)
    ensures y / 400 == (y - 1) / 400 + (if y % 400 == 0 then 1 else 0)
  {
  }

  /** The year loop agrees with the Gregorian count: 365 days a year, plus one for each
      leap year, starting from 2000. */
  lemma {:induction false} DaysBeforeYearClosedForm(year: int)
    requires year >= FirstYear
    ensures DaysBeforeYear(year) == 365 * (year - FirstYear) + LeapsBefore(year)
    decreases year - FirstYear
  {
    if year > FirstYear {
      DaysBeforeYearClosedForm(year - 1);
      LeapStep(year - 1);
    }
  }

  /** The Gregorian calendar repeats every 400 years, which hold 146097 days. */
  lemma GregorianCycle(year: int)
    requires year >= FirstYear
    ensures DaysBeforeYear(year + 400) == DaysBeforeYear(year) + 146097
    ensures YearLength(year + 400) == YearLength(year)
  {
    DaysBeforeYearClosedForm(year);
    DaysBeforeYearClosedForm(year + 400);
    assert (year + 399) / 4 == (year - 1) / 4 + 100;
    assert (year + 399) / 100 == (year - 1) / 100 + 4;
    assert (year + 399) / 400 == (year - 1) / 400 + 1;
  }
}
