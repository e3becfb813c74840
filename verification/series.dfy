/**
 * The VSOP87-style periodic series (sections 3.2 and 3.3 of the NREL Solar
 * Position Algorithm). A table is an ordered list of coefficient groups, group
 * i being the rows of the i-th file and weighted by JME^i; every row is an
 * (A, B, C) triple contributing A cos(B + C JME). The sum, divided by 10^8, is
 * normalised with acos(cos(.)) and, for the geocentric longitude, shifted by
 * pi. Latitude and radius vector reuse the same evaluation.
 */
module Series {
  import opened TimeScale
  import opened Trigonometry

  /** One row of a coefficient file: amplitude A, phase B, frequency C. */
  datatype Term = Term(amplitude: real, phase: real, frequency: real)

  /** A cos(B + C jme). */
  function TermValue(cos: real -> real, jme: real, row: Term): real
  {
    row.amplitude * cos(row.phase + row.frequency * jme)
  }

  /** The sum of the rows' values, added in file order. */
  function RowSum(cos: real -> real, jme: real, rows: seq<Term>): real
    decreases |rows|
  {
    if |rows| == 0 then 0.0
    else RowSum(cos, jme, rows[..|rows| - 1]) + TermValue(cos, jme, rows[|rows| - 1])
  }

  /** The row loop of one coefficient file, with JME taken from the Julian Day. */
  method LagrangeTerm(cos: real -> real, jd: real, rows: seq<Term>) returns (lagrange: real)
    ensures lagrange == RowSum(cos, JulianMillennium(jd), rows)
    ensures |rows| == 0 ==> lagrange == 0.0
  {
    var jme := JulianMillennium(jd);
    lagrange := 0.0;
    for i := 0 to |rows|
      invariant lagrange == RowSum(cos, jme, rows[..i])
    {
      assert rows[..i + 1][..i] == rows[..i];
      lagrange := lagrange + TermValue(cos, jme, rows[i]);
    }
    assert rows[..|rows|] == rows;
  }

  /** Appending a row adds exactly that row's value. */
  lemma RowSumAppend(cos: real -> real, jme: real, rows: seq<Term>, row: Term)
    ensures RowSum(cos, jme, rows + [row]) == RowSum(cos, jme, rows) + TermValue(cos, jme, row)
  {
  }

  /** The sum over two concatenated row lists is the sum of their sums. */
  lemma {:induction false} RowSumConcat(cos: real -> real, jme: real, a: seq<Term>, b: seq<Term>)
    ensures RowSum(cos, jme, a + b) == RowSum(cos, jme, a) + RowSum(cos, jme, b)
    decreases |b|
  {
    if |b| == 0 {
      assert a + b == a;
    } else {
      var b' := b[..|b| - 1];
      assert (a + b)[..|a + b| - 1] == a + b';
      RowSumConcat(cos, jme, a, b');
    }
  }

  /** Reordering the rows of a file does not change its sum. */
  lemma {:induction false} RowSumPermutation(cos: real -> real, jme: real, a: seq<Term>, b: seq<Term>)
    requires multiset(a) == multiset(b)
    ensures RowSum(cos, jme, a) == RowSum(cos, jme, b)
    decreases |a|
  {
    if |a| == 0 {
      assert |b| == |multiset(b)| == 0;
    } else {
      var x := a[|a| - 1];
      var a' := a[..|a| - 1];
      assert a == a' + [x];
      assert x in multiset(b) by { assert x in multiset(a); }
      var j :| 0 <= j < |b| && b[j] == x;
      var b' := b[..j] + b[j + 1..];
      assert b == b[..j] + [x] + b[j + 1..];
      assert multiset(a') == multiset(b') by {
        assert multiset(a) == multiset(a') + multiset{x};
        assert multiset(b) == multiset(b[..j]) + multiset{x} + multiset(b[j + 1..]);
        assert multiset(b') == multiset(b[..j]) + multiset(b[j + 1..]);
        assert multiset(a') == multiset(a) - multiset{x};
        assert multiset(b') == multiset(b) - multiset{x};
      }
      RowSumPermutation(cos, jme, a', b');
      RowSumConcat(cos, jme, b[..j] + [x], b[j + 1..]);
      RowSumAppend(cos, jme, b[..j], x);
      RowSumConcat(cos, jme, b[..j], b[j + 1..]);
      RowSumAppend(cos, jme, a', x);
    }
  }

  /** x^n, as float ** int computes it, with x^0 = 1 also for x = 0. */
  function Pow(x: real, n: nat): real
  {
    if n == 0 then 1.0 else x * Pow(x, n - 1)
  }

  /** The first n powers of x: 1, x, ..., x^(n-1). */
  function Powers(x: real, n: nat): (w: seq<real>)
    ensures |w| == n
    ensures forall k :: 0 <= k < n ==> w[k] == Pow(x, k)
  {
    seq(n, (k: nat) => Pow(x, k))
  }

  /**
   * A coefficient times its weight, kept as one named term. Only the
   * statements of the update and swap lemmas below use it: with plain `*`
   * there the solver reasons about every product of differences and runs out
   * of resource. WeightedSum itself multiplies directly.
   */
  function Weighted(coefficient: real, weight: real): real
  {
    coefficient * weight
  }

  /** The sum of ls[k] * w[k] over k < n, accumulated in index order. */
  function WeightedSum(ls: seq<real>, w: seq<real>, n: nat): real
    requires n <= |ls| && n <= |w|
  {
    if n == 0 then 0.0 else WeightedSum(ls, w, n - 1) + ls[n - 1] * w[n - 1]
  }

  /** The sum of ls[i] * x^i over all coefficients, accumulated in index order. */
  function PowerSum(ls: seq<real>, x: real): real
  {
    WeightedSum(ls, Powers(x, |ls|), |ls|)
  }

  /** Horner's scheme: ls[0] + x (ls[1] + x (ls[2] + ...)). */
  function Horner(ls: seq<real>, x: real): real
    decreases |ls|
  {
    if |ls| == 0 then 0.0 else ls[0] + x * Horner(ls[1..], x)
  }

  /**
   * The first n terms of a power sum, with the constant coefficient peeled off:
   * the rest is x times the power sum of the remaining coefficients.
   */
  lemma {:induction false} PowerSumShiftPrefix(ls: seq<real>, x: real, n: nat)
    requires 0 < n <= |ls|
    ensures WeightedSum(ls, Powers(x, |ls|), n) == ls[0] + x * WeightedSum(ls[1..], Powers(x, |ls| - 1), n - 1)
  {
    var w, v := Powers(x, |ls|), Powers(x, |ls| - 1);
    if n == 1 {
      assert w[0] == 1.0;
    } else {
      var rest := WeightedSum(ls[1..], v, n - 2);
      assert WeightedSum(ls, w, n - 1) == ls[0] + x * rest by {
        PowerSumShiftPrefix(ls, x, n - 1);
      }
      assert Weighted(ls[n - 1], w[n - 1]) == Weighted(ls[1..][n - 2], x * v[n - 2]) by {
        assert ls[1..][n - 2] == ls[n - 1];
        assert w[n - 1] == x * v[n - 2];
      }
      Distribute(x, rest, ls[1..][n - 2], v[n - 2]);
    }
  }

  /** x (s + a b) = x s + a (x b). */
  lemma Distribute(x: real, s: real, a: real, b: real)
    ensures x * (s + Weighted(a, b)) == x * s + Weighted(a, x * b)
  {
  }

  /** Peeling off the constant coefficient of a power sum. */
  lemma PowerSumShift(ls: seq<real>, x: real)
    requires |ls| > 0
    ensures PowerSum(ls, x) == ls[0] + x * PowerSum(ls[1..], x)
  {
    PowerSumShiftPrefix(ls, x, |ls|);
  }

  /** Accumulating coefficient i times x^i is evaluating the polynomial by Horner's scheme. */
  lemma {:induction false} PowerSumIsHorner(ls: seq<real>, x: real)
    ensures PowerSum(ls, x) == Horner(ls, x)
    decreases |ls|
  {
    if |ls| > 0 {
      PowerSumShift(ls, x);
      PowerSumIsHorner(ls[1..], x);
    }
  }

  /** All-zero coefficients sum to zero, whatever the weights. */
  lemma {:induction false} WeightedSumOfZeros(ls: seq<real>, w: seq<real>, n: nat)
    requires n <= |ls| && n <= |w|
    requires forall i :: 0 <= i < n ==> ls[i] == 0.0
    ensures WeightedSum(ls, w, n) == 0.0
  {
    if n > 0 {
      WeightedSumOfZeros(ls, w, n - 1);
    }
  }

  /** When every coefficient is zero, so is the power sum. */
  lemma PowerSumOfZeroSums(ls: seq<real>, x: real)
    ensures (forall i :: 0 <= i < |ls| ==> ls[i] == 0.0) ==> PowerSum(ls, x) == 0.0
  {
    if forall i :: 0 <= i < |ls| ==> ls[i] == 0.0 {
      WeightedSumOfZeros(ls, Powers(x, |ls|), |ls|);
    }
  }

  /** Replacing coefficient k changes the sum of the first n by the difference times w[k], if k < n. */
  lemma {:induction false} WeightedSumUpdate(ls: seq<real>, k: nat, v: real, w: seq<real>, n: nat)
    requires k < |ls| && n <= |ls| && n <= |w|
    ensures WeightedSum(ls[k := v], w, n) == WeightedSum(ls, w, n) + (if k < n then Weighted(v - ls[k], w[k]) else 0.0)
  {
    if n > 0 {
      WeightedSumUpdate(ls, k, v, w, n - 1);
    }
  }

  /** Replacing coefficient k changes the sum by the difference weighted by x^k. */
  lemma PowerSumUpdate(ls: seq<real>, k: nat, v: real, x: real)
    requires k < |ls|
    ensures PowerSum(ls[k := v], x) == PowerSum(ls, x) + (v - ls[k]) * Pow(x, k)
  {
    var w := Powers(x, |ls|);
    assert w[k] == Pow(x, k);
    WeightedSumUpdate(ls, k, v, w, |ls|);
  }

  /** The coefficients with entries i and j exchanged. */
  function Swap<T>(ls: seq<T>, i: nat, j: nat): seq<T>
    requires i < |ls| && j < |ls|
  {
    ls[i := ls[j]][j := ls[i]]
  }

  /**
   * Exchanging two coefficients leaves the sum unchanged exactly when they are
   * equal or their powers of x coincide: the order of the files matters.
   */
  lemma PowerSumSwap(ls: seq<real>, i: nat, j: nat, x: real)
    requires i < |ls| && j < |ls|
    ensures PowerSum(Swap(ls, i, j), x) == PowerSum(ls, x) <==> ls[i] == ls[j] || Pow(x, i) == Pow(x, j)
  {
    WeightedSumSwap(ls, i, j, Powers(x, |ls|));
  }

  /** Exchanging two coefficients of a weighted sum leaves it unchanged exactly when they or their weights are equal. */
  lemma WeightedSumSwap(ls: seq<real>, i: nat, j: nat, w: seq<real>)
    requires i < |ls| <= |w| && j < |ls|
    ensures WeightedSum(Swap(ls, i, j), w, |ls|) == WeightedSum(ls, w, |ls|) <==> ls[i] == ls[j] || w[i] == w[j]
  {
    WeightedSumSwapDifference(ls, i, j, w);
    WeightedIsZero(ls[j] - ls[i], w[i] - w[j]);
  }

  /** Exchanging entries i and j changes a weighted sum by (ls[j] - ls[i]) (w[i] - w[j]). */
  lemma WeightedSumSwapDifference(ls: seq<real>, i: nat, j: nat, w: seq<real>)
    requires i < |ls| <= |w| && j < |ls|
    ensures WeightedSum(Swap(ls, i, j), w, |ls|) - WeightedSum(ls, w, |ls|) == Weighted(ls[j] - ls[i], w[i] - w[j])
  {
    var n := |ls|;
    var first := ls[i := ls[j]];
    assert first[j] == ls[j];
    WeightedSumUpdate(ls, i, ls[j], w, n);
    WeightedSumUpdate(first, j, ls[i], w, n);
    SwapAlgebra(WeightedSum(ls, w, n), WeightedSum(first, w, n), WeightedSum(Swap(ls, i, j), w, n), ls[i], ls[j], w[i], w[j]);
  }

  /** Two updates, a to b under weight p and b to a under weight q, add up to (b - a) (p - q). */
  lemma SwapAlgebra(s: real, s1: real, s2: real, a: real, b: real, p: real, q: real)
    requires s1 == s + Weighted(b - a, p)
    requires s2 == s1 + Weighted(a - b, q)
    ensures s2 - s == Weighted(b - a, p - q)
  {
  }

  /** A contribution vanishes exactly when its coefficient or its weight does. */
  lemma WeightedIsZero(a: real, b: real)
    ensures Weighted(a, b) == 0.0 <==> a == 0.0 || b == 0.0
  {
  }

  /** The per-file sums of a table, all at one JME. */
  function GroupSums(cos: real -> real, jme: real, groups: seq<seq<Term>>): (ls: seq<real>)
    ensures |ls| == |groups|
    ensures forall i :: 0 <= i < |groups| ==> ls[i] == RowSum(cos, jme, groups[i])
  {
    seq(|groups|, i requires 0 <= i < |groups| => RowSum(cos, jme, groups[i]))
  }

  /** The series before normalisation: sum over files i of (file i's sum) JME^i, divided by 10^8. */
  function SeriesValue(cos: real -> real, jd: real, groups: seq<seq<Term>>): (v: real)
    ensures v * 100000000.0 == Horner(GroupSums(cos, JulianMillennium(jd), groups), JulianMillennium(jd))
    ensures (forall i :: 0 <= i < |groups| ==> groups[i] == []) ==> v == 0.0
    ensures jd == J2000 ==> v * 100000000.0 == (if |groups| == 0 then 0.0 else RowSum(cos, 0.0, groups[0]))
  {
    var jme := JulianMillennium(jd);
    var ls := GroupSums(cos, jme, groups);
    PowerSumIsHorner(ls, jme);
    PowerSumOfZeroSums(ls, jme);
    PowerSum(ls, jme) / 100000000.0
  }

  /** Reordering the rows inside any of the files leaves the series unchanged. */
  lemma SeriesValueRowPermutation(cos: real -> real, jd: real, groups: seq<seq<Term>>, groups': seq<seq<Term>>)
    requires |groups| == |groups'|
    requires forall i :: 0 <= i < |groups| ==> multiset(groups[i]) == multiset(groups'[i])
    ensures SeriesValue(cos, jd, groups) == SeriesValue(cos, jd, groups')
  {
    var jme := JulianMillennium(jd);
    forall i | 0 <= i < |groups|
      ensures RowSum(cos, jme, groups[i]) == RowSum(cos, jme, groups'[i])
    {
      RowSumPermutation(cos, jme, groups[i], groups'[i]);
    }
    assert GroupSums(cos, jme, groups) == GroupSums(cos, jme, groups');
  }

  /**
   * Exchanging files i and j changes the series unless their sums agree or
   * JME^i = JME^j, so file order is load-bearing.
   */
  lemma SeriesValueFileSwap(cos: real -> real, jd: real, groups: seq<seq<Term>>, i: nat, j: nat)
    requires i < |groups| && j < |groups|
    ensures var jme := JulianMillennium(jd);
            SeriesValue(cos, jd, Swap(groups, i, j)) == SeriesValue(cos, jd, groups)
            <==> RowSum(cos, jme, groups[i]) == RowSum(cos, jme, groups[j]) || Pow(jme, i) == Pow(jme, j)
  {
    var jme := JulianMillennium(jd);
    var ls := GroupSums(cos, jme, groups);
    assert GroupSums(cos, jme, Swap(groups, i, j)) == Swap(ls, i, j);
    PowerSumSwap(ls, i, j, jme);
    PowerSumIsHorner(ls, jme);
    PowerSumIsHorner(Swap(ls, i, j), jme);
  }

  /** The longitude: the normalised series, plus pi when geocentric. */
  function CelestialLongitude(trig: Trig, jd: real, groups: seq<seq<Term>>, geocentric: bool): (r: real)
    ensures Valid(trig) && !geocentric ==> 0.0 <= r <= trig.pi
    ensures Valid(trig) && geocentric ==> trig.pi <= r <= 2.0 * trig.pi
    ensures Valid(trig) ==> trig.cos(r - (if geocentric then trig.pi else 0.0)) == trig.cos(SeriesValue(trig.cos, jd, groups))
    ensures Valid(trig) && !geocentric && 0.0 <= SeriesValue(trig.cos, jd, groups) <= trig.pi ==> r == SeriesValue(trig.cos, jd, groups)
  {
    var normalized := Normalize(trig, SeriesValue(trig.cos, jd, groups));
    if geocentric then normalized + trig.pi else normalized
  }

  /** The geocentric longitude is the heliocentric one plus exactly pi. */
  lemma LongitudeGeocentricAddsPi(trig: Trig, jd: real, groups: seq<seq<Term>>)
    ensures CelestialLongitude(trig, jd, groups, true) == CelestialLongitude(trig, jd, groups, false) + trig.pi
  {
  }

  /** The latitude: the heliocentric longitude evaluation of the latitude files, negated when geocentric. */
  function CelestialLatitude(trig: Trig, jd: real, groups: seq<seq<Term>>, geocentric: bool): (r: real)
    ensures Valid(trig) && !geocentric ==> 0.0 <= r <= trig.pi
    ensures Valid(trig) && geocentric ==> -trig.pi <= r <= 0.0
    ensures Valid(trig) && !geocentric && -trig.pi <= SeriesValue(trig.cos, jd, groups) < 0.0 ==> r == -SeriesValue(trig.cos, jd, groups)
  {
    LatitudeLosesSign(trig, jd, groups);
    var latitude := CelestialLongitude(trig, jd, groups, false);
    if geocentric then -latitude else latitude
  }

  /**
   * The latitude goes through the same acos(cos(.)) as the longitude, so its
   * sign is lost: for a series value S in [-pi, pi] the heliocentric
   * evaluation that `CelestialLatitude` uses is |S|, and the geocentric
   * latitude is never positive.
   */
  lemma LatitudeLosesSign(trig: Trig, jd: real, groups: seq<seq<Term>>)
    ensures var s := SeriesValue(trig.cos, jd, groups);
            Valid(trig) && -trig.pi <= s <= trig.pi ==> CelestialLongitude(trig, jd, groups, false) == (if s < 0.0 then -s else s)
  {
    var s := SeriesValue(trig.cos, jd, groups);
    if Valid(trig) && -trig.pi <= s < 0.0 {
      NormalizeForgetsSign(trig, -s);
      NormalizeFixesPrincipalRange(trig, -s);
    }
  }

  /** Geocentric latitude is the reflection of heliocentric latitude across the ecliptic. */
  lemma LatitudeGeocentricIsNegation(trig: Trig, jd: real, groups: seq<seq<Term>>)
    ensures CelestialLatitude(trig, jd, groups, true) == -CelestialLatitude(trig, jd, groups, false)
    ensures CelestialLatitude(trig, jd, groups, false) == CelestialLongitude(trig, jd, groups, false)
  {
  }

  /** The radius vector: the heliocentric longitude evaluation of the radius files. */
  function RadiusVector(trig: Trig, jd: real, groups: seq<seq<Term>>): (r: real)
    ensures Valid(trig) ==> 0.0 <= r <= trig.pi
    ensures Valid(trig) && 0.0 <= SeriesValue(trig.cos, jd, groups) <= trig.pi ==> r == SeriesValue(trig.cos, jd, groups)
  {
    CelestialLongitude(trig, jd, groups, false)
  }

  /** The radius vector is the heliocentric longitude of the same files. */
  lemma RadiusIsHeliocentricLongitude(trig: Trig, jd: real, groups: seq<seq<Term>>)
    ensures RadiusVector(trig, jd, groups) == CelestialLongitude(trig, jd, groups, false)
  {
  }
}
