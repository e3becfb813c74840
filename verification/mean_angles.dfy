/**
 * The five mean angles of section 3.4 of the NREL Solar Position Algorithm:
 * cubic polynomials in Julian centuries T since J2000.0, in degrees, converted
 * to radians with `Trig.pi`, the same pi the series use. Each function is
 * written with the terms and signs as the code has them; `Cubic` holds the
 * same polynomials as a table of signed coefficients, and each function's
 * contract ties the two.
 * No reduction to [0, 2 pi) is applied.
 */
module MeanAngles {
  import opened TimeScale
  import opened Trigonometry

  /** c0 + c1 T + c2 T^2 + c3 T^3, in degrees, with the signs folded into the coefficients. */
  datatype Cubic = Cubic(c0: real, c1: real, c2: real, c3: real)

  /** The polynomial evaluated by Horner's scheme. */
  function Evaluate(p: Cubic, t: real): real
  {
    p.c0 + t * (p.c1 + t * (p.c2 + t * p.c3))
  }

  function Radians(pi: real, degrees: real): real
  {
    degrees * pi / 180.0
  }

  const MoonElongation: Cubic := Cubic(297.85036, 445267.111480, -0.0019142, 1.0 / 189474.0)
  const SunAnomaly: Cubic := Cubic(357.52772, 35999.050340, -0.000163, -1.0 / 300000.0)
  const MoonAnomaly: Cubic := Cubic(134.96298, 477198.867398, 0.0086972, 1.0 / 56250.0)
  const MoonLatitude: Cubic := Cubic(93.27191, 483202.017538, -0.0036825, 1.0 / 327270.0)
  const AscendingNode: Cubic := Cubic(125.04452, -1934.136261, 0.0020708, 1.0 / 450000.0)

  /** The expanded and the nested forms of a cubic agree. */
  lemma ExpandCubic(p: Cubic, t: real, t2: real, t3: real)
    requires t2 == t * t && t3 == t * t * t
    ensures Evaluate(p, t) == p.c0 + p.c1 * t + p.c2 * t2 + p.c3 * t3
  {
  }

  /** Mean elongation of the Moon from the Sun, in radians. */
  function MeanMoonElongation(trig: Trig, jd: real): (r: real)
    ensures r == Radians(trig.pi, Evaluate(MoonElongation, JulianCentury(jd)))
    ensures jd == J2000 ==> r == 297.85036 * trig.pi / 180.0
  {
    var t := JulianCentury(jd);
    var degrees := (297.85036 + 445267.111480 * t) - 0.0019142 * (t * t) + (t * t * t) / 189474.0;
    ExpandCubic(MoonElongation, t, t * t, t * t * t);
    degrees * trig.pi / 180.0
  }

  /** Mean anomaly of the Sun (Earth), in radians. */
  function MeanSunAnomaly(trig: Trig, jd: real): (r: real)
    ensures r == Radians(trig.pi, Evaluate(SunAnomaly, JulianCentury(jd)))
    ensures jd == J2000 ==> r == 357.52772 * trig.pi / 180.0
  {
    var t := JulianCentury(jd);
    var degrees := (357.52772 + 35999.050340 * t) - 0.000163 * (t * t) - (t * t * t) / 300000.0;
    ExpandCubic(SunAnomaly, t, t * t, t * t * t);
    degrees * trig.pi / 180.0
  }

  /** Mean anomaly of the Moon, in radians. */
  function MeanMoonAnomaly(trig: Trig, jd: real): (r: real)
    ensures r == Radians(trig.pi, Evaluate(MoonAnomaly, JulianCentury(jd)))
    ensures jd == J2000 ==> r == 134.96298 * trig.pi / 180.0
  {
    var t := JulianCentury(jd);
    var degrees := (134.96298 + 477198.867398 * t) + 0.0086972 * (t * t) + (t * t * t) / 56250.0;
    ExpandCubic(MoonAnomaly, t, t * t, t * t * t);
    degrees * trig.pi / 180.0
  }

  /** Argument of latitude of the Moon, in radians. */
  function MoonLatitudeArgument(trig: Trig, jd: real): (r: real)
    ensures r == Radians(trig.pi, Evaluate(MoonLatitude, JulianCentury(jd)))
    ensures jd == J2000 ==> r == 93.27191 * trig.pi / 180.0
  {
    var t := JulianCentury(jd);
    var degrees := (93.27191 + 483202.017538 * t) - 0.0036825 * (t * t) + (t * t * t) / 327270.0;
    ExpandCubic(MoonLatitude, t, t * t, t * t * t);
    degrees * trig.pi / 180.0
  }

  /** Longitude of the ascending node of the Moon's mean orbit, in radians. */
  function AscendingNodeLongitude(trig: Trig, jd: real): (r: real)
    ensures r == Radians(trig.pi, Evaluate(AscendingNode, JulianCentury(jd)))
    ensures jd == J2000 ==> r == 125.04452 * trig.pi / 180.0
  {
    var t := JulianCentury(jd);
    var degrees := (125.04452 - 1934.136261 * t) + 0.0020708 * (t * t) + (t * t * t) / 450000.0;
    ExpandCubic(AscendingNode, t, t * t, t * t * t);
    degrees * trig.pi / 180.0
  }
}
