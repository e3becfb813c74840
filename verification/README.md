# Solar position time scales and periodic series, in Dafny

This project models the arithmetic core of `helperFunctions.py` from
SuperAccurateSunCalculations. That core is the first stage of a solar position
calculation. It has four parts:

- **Calendar → Julian Day** (`JulianDate`). `JulianDay` is the conversion as the
  code writes it. It takes a year term int(365.25·(year+4716)) and a month term
  int(30.6001·(month+1)). It adds the day, the time-of-day fraction and the
  caller's calendar offset, then subtracts 1524.5. `MeeusJulianDay` is the full
  algorithm from chapter 7 of Meeus' *Astronomical Algorithms*. It is kept only
  as a reference, so that the distance between the two can be stated exactly.
- **Time scales** (`TimeScale`). These are the Julian Ephemeris Day, Julian
  century and Julian millennium since J2000.0, as in section 3.1 of the NREL
  Solar Position Algorithm (SPA) by Reda and Andreas. Each one is an exact
  affine map over `real`.
- **VSOP87-style series** (`Series`). A coefficient file is a `seq<Term>` of
  (A, B, C) rows, and a table is an ordered `seq` of files. `LagrangeTerm` sums
  A·cos(B + C·JME) over one file, where JME is the Julian millennium.
  `SeriesValue` weights file i by JMEⁱ, adds the results and divides by 10⁸.
  `CelestialLongitude` applies acos(cos(·)) to that value and, when geocentric,
  adds π. `CelestialLatitude` and `RadiusVector` reuse that evaluation. The
  series follow SPA sections 3.2 and 3.3, with three differences (see below).
  JME comes from the Julian Day, not the Julian Ephemeris Day. The longitude
  is reduced by acos(cos(·)), not modulo 360°. The latitude and radius go
  through the same acos(cos(·)), which SPA does not apply to them.
- **Mean angles** (`MeanAngles`). These are five cubic polynomials in Julian
  centuries, converted from degrees to radians with the same π as the series.
  They follow SPA section 3.4, with two differences (see below). The century
  count comes from the Julian Day, not the Julian Ephemeris Day. One
  coefficient of the Sun's mean anomaly differs.

Cosine, arccosine and π stay uninterpreted. `Trigonometry.Trig` holds them as
values, and the series and mean-angle functions take it as a parameter.
`Trigonometry.Valid` lists the facts of the real functions that the range results use: cos lies in
[−1, 1] and is even, acos maps [−1, 1] into [0, π], and cos and acos invert
each other there. Every result that depends on these facts has `Valid(trig)`
as its hypothesis.

## Notes on the code's behaviour

These are facts about the code, compared with chapter 7 of Meeus'
*Astronomical Algorithms* and with SPA. The model follows the code in each case.

- 2000-01-01 12:00 converts to 2451557.0, not to J2000.0 (2451545.0)
  (`JulianDayAtJ2000Noon`).
- The Julian Day is not monotonic. For example, 31 January and 1 February share
  one Julian Day (`JulianDayMonthBoundaryCollision`), because the code has no
  January/February year shift, which Meeus' algorithm has.
- The century number `leapYearTerm` is computed but never used. The Gregorian
  correction 2 − A + ⌊A/4⌋ reaches the result only if the caller passes it as
  the calendar offset. From March on, the conversion plus that offset is exactly
  the Meeus algorithm (`JulianDayWithGregorianCorrection`). In January and
  February the conversion stays one to three days behind, whether the offset is
  the correction of the date's own year or that of the previous year, which
  Meeus uses there (`JulianDayJanuaryFebruaryLagOwnYear`,
  `JulianDayJanuaryFebruaryLag`).
- Every time scale is taken from the Julian Day. `julianEphemerisConversion`
  is never called, so both the series' JME and the mean angles' century count
  behave as if ΔT were 0. SPA takes JCE and JME from the Julian Ephemeris Day
  (section 3.1). The two agree exactly when ΔT = 0
  (`TimeScale.EphemerisCorrectionOmitted`).
- A calendar date and a Julian Day are two input modes. At the J2000 test value
  they are twelve days apart: 2000-01-01 12:00 resolves twelve days after
  2451545.0 passed as a Julian Day (`TimeScale.CalendarAndJulianModesAtJ2000`).
- The latitude and radius go through the same acos(cos(·)) as the longitude.
  SPA reduces only the longitude, and leaves the latitude B and radius R as
  computed. So the code's heliocentric latitude is |B| for B in [−π, π]: the
  sign is lost, and the geocentric latitude −|B| is never positive
  (`Series.LatitudeLosesSign`). The radius, about 1 AU, lies in [0, π] and is
  unchanged.
- File order matters. Swapping files i and j leaves the value unchanged exactly
  when their sums agree or JMEⁱ = JMEʲ (`Series.SeriesValueFileSwap`).
- The Moon's argument of latitude subtracts 0.0036825·T², as SPA does.
- The Sun's mean anomaly subtracts 0.000163·T². SPA and chapter 22 of Meeus
  print 0.0001603 for this coefficient. The model uses the code's 0.000163
  (`MeanAngles.MeanSunAnomaly`).
- Without a calendar date, a mean-angle function takes a Julian Day and
  computes the century itself.
- The polynomials of the other four mean angles use SPA's coefficients
  (section 3.4).

## Model

| member | source | states |
|---|---|---|
| `JulianDate.JulianDay` | helperFunctions.py:5-20 | for year ≥ −4716 and months 1 to 12, the Julian Day is ⌊1461·(year+4716)/4⌋ plus the month's table entry, plus the day and its time-of-day fraction, plus the calendar offset, minus 1524.5 |
| `JulianDate.Trunc` | helperFunctions.py:18-19 | the float-to-int cast: the result is the integer next to x on the side of zero, within one unit |
| `JulianDate.YearTerm` | helperFunctions.py:18 | for year ≥ −4716, int(365.25·(year+4716)) is exactly the integer quotient ⌊1461·(year+4716)/4⌋ |
| `JulianDate.MonthTerm` | helperFunctions.py:19 | the month term depends on the month alone and is 61, 91, 122, 153, 183, 214, 244, 275, 306, 336, 367, 397 for months 1 to 12 (428 and 459 for the reference's months 13 and 14) |
| `JulianDate.DayFraction` | helperFunctions.py:12-16 | for hour < 24, minute < 60 and second < 60 (all non-negative), the time-of-day contribution lies in [0, 1) |
| `JulianDate.LeapYearTerm` | helperFunctions.py:10 | the century number is the floor of year/100 (integer division): 100·A ≤ year < 100·A + 100 |
| `JulianDate.JulianDayOffsetShift` | helperFunctions.py:17-20 | the calendar offset shifts the Julian Day by exactly its value |
| `JulianDate.YearTermStep` | helperFunctions.py:18 | from year −4716 on, going up one year raises the year term by 366 when (year+4717) is divisible by 4 and by 365 otherwise |
| `JulianDate.JulianDayYearStep` | helperFunctions.py:18-20 | with every other field fixed, raising the year by one raises the Julian Day by that same 365 or 366 |
| `JulianDate.JulianDayMonthBoundaryCollision` | helperFunctions.py:19-20 | 31 January and 1 February at the same time map to the same Julian Day, so the conversion is not monotonic |
| `JulianDate.JulianDayAtJ2000Noon` | helperFunctions.py:5-20 | 2000-01-01 12:00 with offset 0 converts to 2451557.0, not 2451545.0 |
| `JulianDate.MeeusJulianDayAtJ2000Noon` | helperFunctions.py:5-10 | the full Gregorian-to-Julian algorithm that the docstring names, with the correction built from the century number, gives 2451545.0 for 2000-01-01 12:00 |
| `JulianDate.JulianDayWithGregorianCorrection` | helperFunctions.py:10-20 | the unused century number matters only through the offset: from March on, passing 2 − A + ⌊A/4⌋ as the offset gives exactly the full algorithm |
| `JulianDate.GregorianCorrectionStep` | helperFunctions.py:10 | the correction 2 − A + ⌊A/4⌋ built from the century number changes only at a century year, and then by 0 or −1; the year step before a century year is 366 days |
| `JulianDate.JulianDayJanuaryFebruaryLag` | helperFunctions.py:9-20 | without the January/February year shift, the conversion given the previous year's correction lags the full algorithm by 367 (January) or 368 (February) days minus the previous year step, which is 1 to 3 days |
| `JulianDate.JulianDayJanuaryFebruaryLagOwnYear` | helperFunctions.py:9-20 | in January and February, given the correction 2 − A + ⌊A/4⌋ of the date's own year (A as line 10 computes it), the conversion still lags the full algorithm by 1 to 3 days |
| `TimeScale.JulianEphemerisDay` | helperFunctions.py:22-26 | JDE − JD, times 86400, is ΔT, so ΔT = 0 is exactly the identity |
| `TimeScale.JulianCentury` | helperFunctions.py:28-29 | the century count t satisfies JD = 2451545 + 36525·t, and it is 0 exactly at 2451545.0 |
| `TimeScale.JulianMillennium` | helperFunctions.py:31-32 | the millennium count is a tenth of the century count, satisfies JD = 2451545 + 365250·m, and is 0 exactly at J2000.0 |
| `TimeScale.ResolveJulianDay` | helperFunctions.py:58-61 | the `gregorian` switch (also at lines 93-96, 104-107, 115-118, 126-129 and 137-140): a calendar date with year ≥ −4716, a month from 1 to 12 and a valid time of day resolves to a point in [midnight, midnight + 1), where midnight is ⌊1461·(year+4716)/4⌋ plus the month's table entry plus the day, minus 1524.5; a Julian Day is used unchanged |
| `TimeScale.CalendarAndJulianModesAtJ2000` | helperFunctions.py:55-61 | the date 2000-01-01 12:00 resolves to the Julian Day J2000.0 passed directly plus 12 days |
| `TimeScale.CalendarInputIsConvertedJulianInput` | helperFunctions.py:58-61 | passing a date gives the same Julian Day as passing, with the switch off, the Julian Day that the conversion gives for it |
| `TimeScale.EphemerisCorrectionOmitted` | helperFunctions.py:22-32 | the century and millennium counts of the Julian Ephemeris Day equal those of the Julian Day if and only if ΔT = 0, so calling the time scales on the Julian Day treats ΔT as 0 |
| `TimeScale.JulianCenturyRoundTrip` | helperFunctions.py:28-29 | the century count and JD = 2451545 + 36525·t undo each other in both orders |
| `TimeScale.JulianCenturyAffine` | helperFunctions.py:28-29 | the century count is affine with slope 1/36525 |
| `Trigonometry.Normalize` | helperFunctions.py:70 | acos(cos(x)) lies in [0, π] and has the same cosine as x |
| `Trigonometry.NormalizeFixesPrincipalRange` | helperFunctions.py:70 | angles already in [0, π] come back unchanged |
| `Trigonometry.NormalizeForgetsSign` | helperFunctions.py:70 | x and −x normalise to the same value, so the sign is lost and this is not a reduction modulo 2π |
| `Trigonometry.NormalizeIdempotent` | helperFunctions.py:70 | normalising twice is the same as normalising once |
| `Series.LagrangeTerm` | helperFunctions.py:40-49 | the row loop returns Σ A·cos(B + C·JME) over the file's rows in file order, where JME is the Julian millennium of the given Julian Day; an empty file gives 0 |
| `Series.RowSumAppend` | helperFunctions.py:46-48 | appending a row to a file adds exactly that row's term |
| `Series.RowSumConcat` | helperFunctions.py:46-48 | the sum over two concatenated row lists is the sum of the two sums |
| `Series.RowSumPermutation` | helperFunctions.py:46-48 | any permutation of a file's rows leaves its sum unchanged |
| `Series.PowerSumIsHorner` | helperFunctions.py:66-68 | accumulating coefficient i times JMEⁱ in index order is the polynomial value given by Horner's scheme |
| `Series.PowerSumShift` | helperFunctions.py:66-68 | the accumulated value is L₀ plus JME times the value accumulated from the remaining file sums |
| `Series.WeightedSumOfZeros` | helperFunctions.py:66-68 | all-zero file sums accumulate to 0, whatever their weights |
| `Series.PowerSumOfZeroSums` | helperFunctions.py:66-68 | when every file sum is 0, the accumulated value is 0 |
| `Series.WeightedSumUpdate` | helperFunctions.py:66-68 | changing coefficient k changes the sum of the first n terms by the change times the k-th weight when k < n, and not at all otherwise |
| `Series.PowerSumUpdate` | helperFunctions.py:66-68 | changing the sum of file k by d changes the accumulated value by d·JMEᵏ |
| `Series.WeightedSumSwapDifference` | helperFunctions.py:64-68 | swapping coefficients i and j changes the sum by (Lⱼ − Lᵢ)(wᵢ − wⱼ) |
| `Series.WeightedSumSwap` | helperFunctions.py:64-68 | swapping coefficients i and j leaves the sum unchanged if and only if Lᵢ = Lⱼ or their weights are equal |
| `Series.PowerSumSwap` | helperFunctions.py:64-68 | swapping the sums of files i and j leaves the value unchanged if and only if Lᵢ = Lⱼ or JMEⁱ = JMEʲ |
| `Series.SeriesValue` | helperFunctions.py:62-69 | the value before normalisation is (Σᵢ Lᵢ·JMEⁱ)/10⁸, with file i weighted by JMEⁱ in list order; it is 0 for no files or all-empty files; at JME = 0 only file 0 contributes, since 0⁰ = 1 |
| `Series.SeriesValueRowPermutation` | helperFunctions.py:40-69 | permuting the rows inside any of the files leaves the series value unchanged |
| `Series.SeriesValueFileSwap` | helperFunctions.py:62-69 | swapping files i and j in the ordered list leaves the series value unchanged if and only if their sums agree or JMEⁱ = JMEʲ |
| `Series.CelestialLongitude` | helperFunctions.py:51-74 | the heliocentric result lies in [0, π] and the geocentric one in [π, 2π]; after removing the π shift it has the cosine of the series value; a series value already in [0, π] is returned unchanged by the heliocentric longitude |
| `Series.LongitudeGeocentricAddsPi` | helperFunctions.py:70-74 | the geocentric longitude is the heliocentric one plus exactly π |
| `Series.CelestialLatitude` | helperFunctions.py:76-84 | the heliocentric latitude lies in [0, π] and the geocentric one in [−π, 0]; for a series value S in [−π, 0) the heliocentric latitude is −S, so the sign is lost |
| `Series.LatitudeLosesSign` | helperFunctions.py:70-84 | under `Valid`, for a series value S in [−π, π] the heliocentric evaluation that the latitude reuses is \|S\|, so a negative S comes back with its sign flipped |
| `Series.LatitudeGeocentricIsNegation` | helperFunctions.py:76-84 | the geocentric latitude is the negation of the heliocentric one, and the heliocentric latitude is the heliocentric longitude of the same files |
| `Series.RadiusVector` | helperFunctions.py:86-88 | the radius lies in [0, π] and equals the series value exactly when that value lies in [0, π] (as Earth's distance of about 1 AU does) |
| `Series.RadiusIsHeliocentricLongitude` | helperFunctions.py:86-88 | the radius vector is the heliocentric longitude evaluation of the same files |
| `MeanAngles.MeanMoonElongation` | helperFunctions.py:90-101 | (297.85036 + 445267.111480·T − 0.0019142·T² + T³/189474)·π/180, where T is the Julian century; it is 297.85036·π/180 at J2000.0 |
| `MeanAngles.MeanSunAnomaly` | helperFunctions.py:103-112 | (357.52772 + 35999.050340·T − 0.000163·T² − T³/300000)·π/180; it is 357.52772·π/180 at J2000.0 |
| `MeanAngles.MeanMoonAnomaly` | helperFunctions.py:114-123 | (134.96298 + 477198.867398·T + 0.0086972·T² + T³/56250)·π/180; it is 134.96298·π/180 at J2000.0 |
| `MeanAngles.MoonLatitudeArgument` | helperFunctions.py:125-134 | (93.27191 + 483202.017538·T − 0.0036825·T² + T³/327270)·π/180; it is 93.27191·π/180 at J2000.0 |
| `MeanAngles.AscendingNodeLongitude` | helperFunctions.py:136-145 | (125.04452 − 1934.136261·T + 0.0020708·T² + T³/450000)·π/180; it is 125.04452·π/180 at J2000.0 |

## Left out

- Opening and parsing the coefficient files (helperFunctions.py:44-45) is I/O.
  So is the load error on a missing or malformed file. A file is passed in as a
  `seq<Term>` of rows.
- `parseDataToCsv` (helperFunctions.py:147-167) is left out. It is a one-off
  data-reformatting utility that does file I/O and printing.
- `lagrangeContribution` (helperFunctions.py:34-38) is left out. It is dead code
  that computes nothing.
- The module-level file-path constants and the final `print` call
  (helperFunctions.py:169-188) are left out. They are configuration and side
  effects.
- The numerics of `cos`, `arccos` and `np.pi` are not modelled. They are
  uninterpreted parameters (`Trigonometry.Trig`), constrained only by
  `Trigonometry.Valid`. The mean angles use the same `Trig.pi`.
- IEEE-754 rounding is not modelled. All arithmetic is exact `real`. Integer
  truncation appears only where the code casts to `int`. For months 1 to 12, no
  product 30.6001·(month+1) is close enough to an integer for float rounding to
  change the truncated value.
- The `gregorian` switch is not repeated in each entry point. The entry points
  take a Julian Day, and `TimeScale.ResolveJulianDay` models the switch once for
  all of them.
- The date-time's `microsecond` field is not part of `DateTime`, because the
  code reads `.second` only, so sub-second time is dropped.
- Calendar fields are not validated. The code does not check them either: a
  date-time value enforces its own ranges, and any integers are accepted here.
