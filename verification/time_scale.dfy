/**
 * The time scales derived from a Julian Day: Julian Ephemeris Day, Julian
 * century and Julian millennium since J2000.0 (section 3.1 of the NREL Solar
 * Position Algorithm by Reda and Andreas). Each is an exact affine map, so
 * each comes with its inverse.
 */
module TimeScale {
  import opened JulianDate

  /** Julian Day of the epoch J2000.0. */
  const J2000: real := 2451545.0

  const SecondsPerDay: real := 86400.0

  const DaysPerCentury: real := 36525.0

  /** JDE = JD + deltaT / 86400, deltaT being the caller's TT - UT difference in seconds. */
  function JulianEphemerisDay(jd: real, deltaT: real): (jde: real)
    ensures (jde - jd) * SecondsPerDay == deltaT
    ensures deltaT == 0.0 <==> jde == jd
  {
    jd + deltaT / 86400.0
  }

  /** Julian centuries since J2000.0. */
  function JulianCentury(jd: real): (t: real)
    ensures jd == J2000 + DaysPerCentury * t
    ensures t == 0.0 <==> jd == J2000
  {
    (jd - 2451545.0) / 36525.0
  }

  /** Julian millennia since J2000.0, computed from the century count. */
  function JulianMillennium(jd: real): (m: real)
    ensures 10.0 * m == JulianCentury(jd)
    ensures jd == J2000 + 10.0 * DaysPerCentury * m
    ensures m == 0.0 <==> jd == J2000
  {
    JulianCentury(jd) / 10.0
  }

  /** Inverse of `JulianCentury`. */
  function JulianDayOfCentury(t: real): real
  {
    J2000 + DaysPerCentury * t
  }

  /** Century count and its inverse undo each other in both orders. */
  lemma JulianCenturyRoundTrip(jd: real, t: real)
    ensures JulianDayOfCentury(JulianCentury(jd)) == jd
    ensures JulianCentury(JulianDayOfCentury(t)) == t
  {
  }

  /** The century count is affine with slope 1/36525. */
  lemma JulianCenturyAffine(a: real, b: real)
    ensures JulianCentury(a) - JulianCentury(b) == (a - b) / DaysPerCentury
  {
  }

  /**
   * The two ways an entry point may be given its time: a calendar date,
   * converted with `JulianDay` at offset 0, or a Julian Day used as it is.
   */
  datatype Instant = Calendar(date: DateTime) | Julian(jd: real)

  /**
   * The `gregorian` switch of the entry points: convert a date, pass a Julian
   * Day through. A date with a valid time of day resolves to a point inside
   * its own day, the day that starts at the conversion's midnight.
   */
  function ResolveJulianDay(when: Instant): (jd: real)
    ensures when.Calendar? && -4716 <= when.date.year && 1 <= when.date.month <= 12
            && 0 <= when.date.hour < 24 && 0 <= when.date.minute < 60 && 0 <= when.date.second < 60 ==>
              var midnight := ((1461 * (when.date.year + 4716)) / 4 + MonthTable[when.date.month - 1] + when.date.day) as real - 1524.5;
              midnight <= jd < midnight + 1.0
    ensures when.Julian? ==> jd == when.jd
  {
    match when
    case Calendar(date) => JulianDay(date, 0.0)
    case Julian(jd) => jd
  }

  /**
   * The two modes disagree at the epoch: the date 2000-01-01 12:00 resolves
   * twelve days after the Julian Day of J2000.0 passed as it is.
   */
  lemma CalendarAndJulianModesAtJ2000()
    ensures ResolveJulianDay(Calendar(DateTime(2000, 1, 1, 12, 0, 0))) == ResolveJulianDay(Julian(J2000)) + 12.0
  {
    JulianDayAtJ2000Noon();
  }

  /**
   * The time scales are taken from the Julian Day, with no ephemeris
   * correction: they agree with the ones taken from the Julian Ephemeris Day
   * exactly when deltaT is 0.
   */
  lemma EphemerisCorrectionOmitted(jd: real, deltaT: real)
    ensures JulianCentury(JulianEphemerisDay(jd, deltaT)) == JulianCentury(jd) <==> deltaT == 0.0
    ensures JulianMillennium(JulianEphemerisDay(jd, deltaT)) == JulianMillennium(jd) <==> deltaT == 0.0
  {
  }

  /** Passing a date, or passing the Julian Day the conversion gives it, resolves to the same day. */
  lemma CalendarInputIsConvertedJulianInput(date: DateTime)
    ensures ResolveJulianDay(Calendar(date)) == ResolveJulianDay(Julian(JulianDay(date, 0.0)))
  {
  }
}
