/**
 * Calendar date to Julian Day, as the conversion is written: the year and
 * month terms of the Julian Day formula, truncated the way a float-to-int
 * cast truncates, plus the day and its fraction. Unlike the full algorithm
 * of chapter 7 of Meeus' "Astronomical Algorithms", the conversion does not
 * move January and February to the previous year and does not add the
 * Gregorian correction 2 - A + A/4; that correction is only reachable through
 * the caller's calendar offset. `MeeusJulianDay` is the full algorithm, kept
 * as a reference to state exactly how far the two are apart.
 */
module JulianDate {

  /** The integer fields of a date-time value that the conversion reads. */
  datatype DateTime = DateTime(year: int, month: int, day: int, hour: int, minute: int, second: int)

  /** Truncation toward zero, which is what a cast of a float to an integer does. */
  function Trunc(x: real): (n: int)
    ensures 0.0 <= x ==> n as real <= x < n as real + 1.0
    ensures x < 0.0 ==> n as real - 1.0 < x <= n as real
  {
    if 0.0 <= x then x.Floor else -((-x).Floor)
  }

  /** The whole days contributed by the year: int(365.25 * (year + 4716)). */
  function YearTerm(year: int): (n: int)
    ensures -4716 <= year ==> n == (1461 * (year + 4716)) / 4
  {
    var t := 365.25 * (year + 4716) as real;
    var q := (1461 * (year + 4716)) / 4;
    assert -4716 <= year ==> q as real <= t < q as real + 1.0;
    Trunc(t)
  }

  /** Days in the year step from `year` to `year + 1`: 366 when the four-year cycle closes. */
  function YearLength(year: int): int
  {
    if (year + 4717) % 4 == 0 then 366 else 365
  }

  /** The month terms for months 1 to 12; entries 13 and 14 are the ones the full algorithm uses for January and February. */
  const MonthTable: seq<int> := [61, 91, 122, 153, 183, 214, 244, 275, 306, 336, 367, 397, 428, 459]

  /** The whole days contributed by the month: int(30.6001 * (month + 1)). */
  function MonthTerm(month: int): (n: int)
    ensures 1 <= month <= 14 ==> n == MonthTable[month - 1]
  {
    Trunc(30.6001 * (month + 1) as real)
  }

  /** Time of day as a fraction of the 86400-second day. */
  function DayFraction(hour: int, minute: int, second: int): (f: real)
    ensures 0 <= hour < 24 && 0 <= minute < 60 && 0 <= second < 60 ==> 0.0 <= f < 1.0
    ensures 0 <= hour && 0 <= minute && 0 <= second ==> 0.0 <= f
  {
    (hour as real * 3600.0 + minute as real * 60.0 + second as real) / 86400.0
  }

  /** The century number int(year / 100) with floor division of integers; the conversion computes it and never uses it. */
  function LeapYearTerm(year: int): (a: int)
    ensures 100 * a <= year < 100 * a + 100
  {
    year / 100
  }

  /** Calendar date and time to Julian Day, shifted by the caller's calendar offset. */
  function JulianDay(date: DateTime, calendarOffset: real): (r: real)
    ensures -4716 <= date.year && 1 <= date.month <= 12 ==>
              r == ((1461 * (date.year + 4716)) / 4 + MonthTable[date.month - 1]) as real
                   + date.day as real + DayFraction(date.hour, date.minute, date.second) + calendarOffset - 1524.5
  {
    var day := date.day as real + DayFraction(date.hour, date.minute, date.second);
    YearTerm(date.year) as real + MonthTerm(date.month) as real + day + calendarOffset - 1524.5
  }

  /** The calendar offset enters the Julian Day one for one. */
  lemma JulianDayOffsetShift(date: DateTime, calendarOffset: real)
    ensures JulianDay(date, calendarOffset) == JulianDay(date, 0.0) + calendarOffset
  {
  }

  /** Between consecutive years from -4716 on, the year term grows by 365, or by 366 when (year + 4717) is a multiple of 4. */
  lemma YearTermStep(year: int)
    requires -4716 <= year
    ensures YearTerm(year + 1) - YearTerm(year) == YearLength(year)
  {
    var n := year + 4716;
    var q, r := n / 4, n % 4;
    assert n == 4 * q + r;
    assert 1461 * n == 4 * (1461 * q) + 1461 * r;
    assert 1461 * (n + 1) == 4 * (1461 * q) + 1461 * r + 1461;
    if r == 0 {
      assert (1461 * n) / 4 == 1461 * q;
      assert (1461 * (n + 1)) / 4 == 1461 * q + 365;
    } else if r == 1 {
      assert (1461 * n) / 4 == 1461 * q + 365;
      assert (1461 * (n + 1)) / 4 == 1461 * q + 730;
    } else if r == 2 {
      assert (1461 * n) / 4 == 1461 * q + 730;
      assert (1461 * (n + 1)) / 4 == 1461 * q + 1095;
    } else {
      assert (1461 * n) / 4 == 1461 * q + 1095;
      assert (1461 * (n + 1)) / 4 == 1461 * q + 1461;
      assert (year + 4717) % 4 == 0;
    }
  }

  /** Moving a date one year later, every other field unchanged, moves its Julian Day by the length of that year step. */
  lemma JulianDayYearStep(date: DateTime, calendarOffset: real)
    requires -4716 <= date.year
    ensures JulianDay(date.(year := date.year + 1), calendarOffset)
         == JulianDay(date, calendarOffset) + YearLength(date.year) as real
  {
    YearTermStep(date.year);
  }

  /** Without the January/February year shift, 31 January and 1 February at the same time of day share one Julian Day. */
  lemma JulianDayMonthBoundaryCollision(year: int, hour: int, minute: int, second: int, calendarOffset: real)
    ensures JulianDay(DateTime(year, 1, 31, hour, minute, second), calendarOffset)
         == JulianDay(DateTime(year, 2, 1, hour, minute, second), calendarOffset)
  {
  }

  /** The conversion puts 2000-01-01 12:00 at Julian Day 2451557.0, twelve days after the epoch J2000.0 (2451545.0). */
  lemma JulianDayAtJ2000Noon()
    ensures JulianDay(DateTime(2000, 1, 1, 12, 0, 0), 0.0) == 2451557.0
  {
  }

  /** The Gregorian correction 2 - A + A/4 of the full algorithm, A the century number. */
  function GregorianCorrection(year: int): int
  {
    var a := LeapYearTerm(year);
    2 - a + a / 4
  }

  /** Chapter 7 of Meeus: January and February count as months 13 and 14 of the previous year, and the Gregorian correction is added. */
  function MeeusJulianDay(date: DateTime): real
  {
    var y := if date.month <= 2 then date.year - 1 else date.year;
    var m := if date.month <= 2 then date.month + 12 else date.month;
    var day := date.day as real + DayFraction(date.hour, date.minute, date.second);
    YearTerm(y) as real + MonthTerm(m) as real + day + GregorianCorrection(y) as real - 1524.5
  }

  /** The full algorithm does place 2000-01-01 12:00 at J2000.0. */
  lemma MeeusJulianDayAtJ2000Noon()
    ensures MeeusJulianDay(DateTime(2000, 1, 1, 12, 0, 0)) == 2451545.0
  {
  }

  /** From March on, the conversion given the Gregorian correction as its calendar offset is the full algorithm. */
  lemma JulianDayWithGregorianCorrection(date: DateTime)
    requires 3 <= date.month
    ensures JulianDay(date, GregorianCorrection(date.year) as real) == MeeusJulianDay(date)
  {
  }

  /**
   * In January and February, even given the correction of the previous
   * year (the one the full algorithm uses there), the conversion falls
   * behind the full algorithm by 367 (January) or 368 (February) days less
   * the length of the previous year step: one or two days in January, two or
   * three in February.
   */
  lemma JulianDayJanuaryFebruaryLag(date: DateTime)
    requires 1 <= date.month <= 2
    requires -4715 <= date.year
    ensures JulianDay(date, GregorianCorrection(date.year - 1) as real)
         == MeeusJulianDay(date) + (YearLength(date.year - 1) - (if date.month == 1 then 367 else 368)) as real
    ensures MeeusJulianDay(date) - 3.0 <= JulianDay(date, GregorianCorrection(date.year - 1) as real) <= MeeusJulianDay(date) - 1.0
  {
    YearTermStep(date.year - 1);
    assert YearTerm(date.year) == YearTerm(date.year - 1) + YearLength(date.year - 1);
    assert MonthTerm(date.month + 12) == MonthTerm(date.month) + (if date.month == 1 then 367 else 368);
  }

  /**
   * Given instead the correction of the date's own year, as the conversion's
   * century number would give it, the conversion is still one to three days
   * behind in January and February.
   */
  lemma JulianDayJanuaryFebruaryLagOwnYear(date: DateTime)
    requires 1 <= date.month <= 2
    requires -4715 <= date.year
    ensures MeeusJulianDay(date) - 3.0 <= JulianDay(date, GregorianCorrection(date.year) as real) <= MeeusJulianDay(date) - 1.0
  {
    JulianDayJanuaryFebruaryLag(date);
    GregorianCorrectionStep(date.year);
    JulianDayOffsetShift(date, GregorianCorrection(date.year) as real);
    JulianDayOffsetShift(date, GregorianCorrection(date.year - 1) as real);
  }

  /**
   * The correction changes only at a century year, and then by at most one
   * day down; the year step before a century year is a long one.
   */
  lemma GregorianCorrectionStep(year: int)
    ensures year % 100 != 0 ==> GregorianCorrection(year) == GregorianCorrection(year - 1)
    ensures year % 100 == 0 ==> GregorianCorrection(year - 1) - 1 <= GregorianCorrection(year) <= GregorianCorrection(year - 1)
    ensures year % 100 == 0 ==> YearLength(year - 1) == 366
  {
    var a := LeapYearTerm(year - 1);
    var b := LeapYearTerm(year);
    if year % 100 == 0 {
      assert year == 100 * a + 100;
      assert b == a + 1;
      var q, r := a / 4, a % 4;
      assert a == 4 * q + r && 0 <= r < 4;
      assert (a + 1) / 4 == (if r == 3 then q + 1 else q);
      assert year + 4716 == 4 * (25 * a + 1204);
    } else {
      assert b == a;
    }
  }
}
