/** What the filter of control.rs does over whole runs of measurements. */
module FilterTheory {
  import opened Machine
  import opened Control

  /** The filter after a run of measurements. */
  function FilterRun(f: Filter, zs: seq<real>): (g: Filter)
    requires f.Valid()
    ensures g.Valid() && g.q == f.q && g.r == f.r
  {
    if zs == [] then f else
      var g := FilterRun(f, zs[..|zs| - 1]);
      GainFacts(g, zs[|zs| - 1]);
      FilterUpdate(g, zs[|zs| - 1])
  }

  // ---------------------------------------------------------------- the covariance

  /** How far the covariance lies below the fixed point of its own recursion: positive
      below it, zero on it. */
  function Gap(f: Filter): real {
    f.q * f.r - (f.p * f.p + f.q * f.p)
  }

  /** An update scales the gap by the square of one less the gain, and moves the covariance
      up exactly while the gap is positive. */
  lemma GapShrinks(f: Filter, z: real)
    requires f.Valid()
    ensures var g, u := FilterUpdate(f, z), 1.0 - f.Gain();
            && Gap(g) == u * u * Gap(f)
            && (g.p > f.p <==> Gap(f) > 0.0)
            && (g.p == f.p <==> Gap(f) == 0.0)
  {
  }

  lemma GapStaysPositive(f: Filter, z: real)
    requires f.Valid() && Gap(f) > 0.0
    ensures FilterUpdate(f, z).p > f.p && Gap(FilterUpdate(f, z)) > 0.0
  {
    hide FilterUpdate, Filter.Gain, Gap;
    GainFacts(f, z);
    GapShrinks(f, z);
    var u := 1.0 - f.Gain();
    MulLessReal(0.0, u, u);
    MulLessReal(0.0, u * u, Gap(f));
  }

  /** From any start below the fixed point, the shipped start included, the covariance climbs
      at every measurement of every run and never reaches the fixed point. */
  lemma {:induction false} CovarianceClimbs(f: Filter, zs: seq<real>)
    requires f.Valid() && Gap(f) > 0.0
    ensures Gap(FilterRun(f, zs)) > 0.0
    ensures forall i, j | 0 <= i < j <= |zs| :: FilterRun(f, zs[..i]).p < FilterRun(f, zs[..j]).p
  {
    if zs == [] {
    } else {
      hide FilterUpdate, Filter.Gain, Gap;
      var n := |zs| - 1;
      CovarianceClimbs(f, zs[..n]);
      GapStaysPositive(FilterRun(f, zs[..n]), zs[n]);
      assert zs[..|zs|] == zs;
      forall i, j | 0 <= i < j <= |zs|
        ensures FilterRun(f, zs[..i]).p < FilterRun(f, zs[..j]).p
      {
        assert zs[..n][..i] == zs[..i];
        if j <= n {
          assert zs[..n][..j] == zs[..j];
        } else if i < n {
          assert zs[..n][..n] == zs[..n];
        }
      }
    }
  }

  /** On the fixed point it stays there, so the gain is constant. */
  lemma {:induction false} CovarianceRests(f: Filter, zs: seq<real>)
    requires f.Valid() && Gap(f) == 0.0
    ensures FilterRun(f, zs).p == f.p
  {
    if zs == [] {
    } else {
      CovarianceRests(f, zs[..|zs| - 1]);
      GapShrinks(FilterRun(f, zs[..|zs| - 1]), zs[|zs| - 1]);
    }
  }

  // ---------------------------------------------------------------- the estimate

  /** The remaining error is one less the gain of what it was. */
  lemma ErrorScales(f: Filter, z: real)
    requires f.Valid()
    ensures z - FilterUpdate(f, z).x == (1.0 - f.Gain()) * (z - f.x)
    ensures 0.0 < f.Gain() < 1.0
  {
    GainFacts(f, z);
    var k, d := f.Gain(), z - f.x;
    Distribute(1.0 - k, k, d);
  }

  lemma Distribute(a: real, b: real, c: real)
    ensures (a + b) * c == a * c + b * c
    ensures c * (a + b) == c * a + c * b
  {
  }

  /** The estimate stays in the hull of where it began and everything it was shown. */
  lemma {:induction false} EstimateInHull(f: Filter, zs: seq<real>, lo: real, hi: real)
    requires f.Valid() && lo <= f.x <= hi
    requires forall i | 0 <= i < |zs| :: lo <= zs[i] <= hi
    ensures lo <= FilterRun(f, zs).x <= hi
  {
    if zs == [] {
    } else {
      hide FilterUpdate, Filter.Gain;
      var n := |zs| - 1;
      EstimateInHull(f, zs[..n], lo, hi);
      var g := FilterRun(f, zs[..n]);
      assert FilterRun(f, zs) == FilterUpdate(g, zs[n]);
      HullStep(g, zs[n], lo, hi);
    }
  }

  lemma HullStep(f: Filter, z: real, lo: real, hi: real)
    requires f.Valid() && lo <= f.x <= hi && lo <= z <= hi
    ensures lo <= FilterUpdate(f, z).x <= hi
  {
    hide FilterUpdate, Filter.Gain;
    GainFacts(f, z);
    UpdateValue(f, z);
    PartWay(f.Gain(), z - f.x);
    MovesWithin(f.x, z, f.Gain() * (z - f.x));
  }

  lemma UpdateValue(f: Filter, z: real)
    requires f.Valid()
    ensures FilterUpdate(f, z).x == f.x + f.Gain() * (z - f.x)
  {
  }

  /** A move that goes part of the way from `x` to `z` stays between them. */
  lemma MovesWithin(x: real, z: real, move: real)
    requires if z >= x then 0.0 <= move <= z - x else z - x <= move <= 0.0
    ensures if z >= x then x <= x + move <= z else z <= x + move <= x
  {
  }

  /** A fraction of a move stays within the move. */
  lemma PartWay(k: real, d: real)
    requires 0.0 < k < 1.0
    ensures if d >= 0.0 then 0.0 <= k * d <= d else d <= k * d <= 0.0
  {
  }

  /** So the conversion of an estimate back to an integer never saturates, whatever errors
      the controller was shown. */
  lemma EstimateNeverSaturates(zs: seq<real>)
    requires forall i | 0 <= i < |zs| :: -0x8000_0000_0000_0000 as real <= zs[i] <= 0x7fff_ffff_ffff_ffff as real
    ensures RealToI64(FilterRun(INITIAL_FILTER, zs).x) == TruncReal(FilterRun(INITIAL_FILTER, zs).x)
  {
    EstimateInHull(INITIAL_FILTER, zs, -0x8000_0000_0000_0000 as real, 0x7fff_ffff_ffff_ffff as real);
  }

  function AbsReal(x: real): real {
    if x < 0.0 then -x else x
  }

  function PowReal(b: real, n: nat): real {
    if n == 0 then 1.0 else b * PowReal(b, n - 1)
  }

  ghost predicate Constant(zs: seq<real>, z: real) {
    forall i | 0 <= i < |zs| :: zs[i] == z
  }

  /** A larger covariance means a larger gain. */
  lemma GainMonotone(f: Filter, g: Filter)
    requires f.Valid() && g.Valid() && g.q == f.q && g.r == f.r && f.p <= g.p
    ensures 0.0 < f.Gain() <= g.Gain() < 1.0
  {
    hide Filter.Gain;
    GainFacts(f, 0.0);
    GainFacts(g, 0.0);
    GainOrder(f.p + f.q, g.p + g.q, f.r, f.Gain(), g.Gain());
  }

  lemma GainOrder(s: real, t: real, r: real, k: real, m: real)
    requires 0.0 < s <= t && r > 0.0 && k * (s + r) == s && m * (t + r) == t && 0.0 < k < 1.0 && 0.0 < m < 1.0
    ensures k <= m
  {
    var u, v := 1.0 - k, 1.0 - m;
    assert u * (s + r) == r by { Distribute(u, k, s + r); }
    assert v * (t + r) == r by { Distribute(v, m, t + r); }
    MulLeReal(s + r, t + r, v);
    calc { v * (s + r); (s + r) * v; <= (t + r) * v; v * (t + r); u * (s + r); }
    CancelLe(v, u, s + r);
  }

  /** The filter mid-run uses a gain no smaller than its first. */
  lemma LaterGain(f: Filter, zs: seq<real>)
    requires f.Valid() && Gap(f) >= 0.0
    ensures 0.0 < f.Gain() <= FilterRun(f, zs).Gain() < 1.0
  {
    hide FilterUpdate, Filter.Gain, Gap;
    if Gap(f) > 0.0 {
      CovarianceClimbs(f, zs);
      assert zs[..|zs|] == zs && zs[..0] == [];
      if |zs| > 0 {
        assert FilterRun(f, zs[..0]).p < FilterRun(f, zs[..|zs|]).p;
      }
    } else {
      CovarianceRests(f, zs);
    }
    GainMonotone(f, FilterRun(f, zs));
  }

  /** A constant measurement is approached geometrically, at the rate of the first gain. */
  lemma {:induction false} ConstantMeasurement(f: Filter, zs: seq<real>, z: real)
    requires f.Valid() && Gap(f) >= 0.0 && Constant(zs, z)
    ensures AbsReal(z - FilterRun(f, zs).x) <= PowReal(1.0 - f.Gain(), |zs|) * AbsReal(z - f.x)
  {
    hide FilterUpdate, Filter.Gain, Gap, PowReal, AbsReal;
    if zs == [] {
      PowerStep(1.0 - f.Gain(), 0);
    } else {
      var n := |zs| - 1;
      ConstantMeasurement(f, zs[..n], z);
      LaterGain(f, zs[..n]);
      var g := FilterRun(f, zs[..n]);
      assert FilterRun(f, zs) == FilterUpdate(g, z);
      PowerStep(1.0 - f.Gain(), n);
      ApproachStep(g, z, 1.0 - f.Gain(), PowReal(1.0 - f.Gain(), n), AbsReal(z - f.x), PowReal(1.0 - f.Gain(), n + 1));
    }
  }

  lemma PowerStep(b: real, n: nat)
    ensures PowReal(b, 0) == 1.0 && PowReal(b, n + 1) == b * PowReal(b, n)
  {
  }

  lemma ApproachStep(g: Filter, z: real, v: real, power: real, start: real, power': real)
    requires g.Valid() && 1.0 - g.Gain() <= v && AbsReal(z - g.x) <= power * start
    requires power' == v * power
    ensures AbsReal(z - FilterUpdate(g, z).x) <= power' * start
  {
    hide FilterUpdate, Filter.Gain;
    ErrorScales(g, z);
    ContractStep(z - g.x, z - FilterUpdate(g, z).x, 1.0 - g.Gain(), v, power * start);
    assert v * (power * start) == (v * power) * start;
  }

  lemma ContractStep(d: real, d': real, u: real, v: real, start: real)
    requires 0.0 < u <= v && AbsReal(d) <= start && d' == u * d
    ensures AbsReal(d') <= v * start
  {
  }

  /** The shipped filter on a constant measurement. */
  lemma ShippedFilterConverges(zs: seq<real>, z: real)
    requires Constant(zs, z)
    ensures AbsReal(z - FilterRun(INITIAL_FILTER, zs).x) <= PowReal(4000.0 / 4051.0, |zs|) * AbsReal(z)
  {
    hide FilterUpdate, FilterRun, PowReal;
    assert Gap(INITIAL_FILTER) > 0.0;
    assert 1.0 - INITIAL_FILTER.Gain() == 4000.0 / 4051.0;
    ConstantMeasurement(INITIAL_FILTER, zs, z);
  }
}
