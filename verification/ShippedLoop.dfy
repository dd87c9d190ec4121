/** The filtered loop with the settings that are shipped (control.rs:17-19, cli.rs:34-39). */
module ShippedLoop {
  import opened Machine
  import opened Control
  import opened ClosedLoop
  import opened FilterTheory
  import opened FilterEnergy
  import opened FreeSteps
  import opened KalmanLoop

  /** The shipped filter and limit (control.rs:17-19, cli.rs:34-39), with a gain of choice. */
  function Shipped(kpPpm: i64): Ctl {
    Ctl(kpPpm, 200, Some(INITIAL_FILTER))
  }

  function ShippedRun(kpPpm: i64, e: i64, drifts: seq<int>): (t: Loop) {
    Run(Loop(Shipped(kpPpm), e), drifts)
  }

  const UNIT_ENVELOPE := Envelope(0.106, 1.0, 377_000.0, 2)

  /** With the shipped gain of one and a drift of at most two microseconds a cycle, any start within
      614 microseconds is tracked forever without saturation, never further off than that, and the
      squared error sinks geometrically toward 25,079 times the squared miss. */
  lemma ShippedLoopTracks(e: i64, drifts: seq<int>, bound: nat)
    requires Abs(e) <= 614 && bound <= 2 && DriftWithin(drifts, bound)
    ensures Unclamped(ShippedRun(UNIT_GAIN, e, drifts))
    ensures Abs(ShippedRun(UNIT_GAIN, e, drifts).err) <= 614
    ensures var err := ShippedRun(UNIT_GAIN, e, drifts).err as real;
            err * err <= 25_079.0 * ((1 + bound) * (1 + bound)) as real + PowReal(8051.0 / 8102.0, |drifts|) * 352_000.0
  {
    hide Run, RestLevel, Level, PowReal, Decide, Tame, Unclamped, WellStarted, Abs, Cost;
    UnitStart(e, bound);
    FilteredLoopTracks(Loop(Shipped(UNIT_GAIN), e), UNIT_ENVELOPE.(drift := bound), drifts);
    UnitCost(bound);
    ShippedLevel(|drifts|, Cost(UNIT_GAIN, bound));
    IntegerSquare(ShippedRun(UNIT_GAIN, e, drifts).err, 614, 377_000.0);
  }

  /** A static offset sinks toward 25,079. */
  lemma ShippedLoopSettles(e: i64, n: nat)
    requires Abs(e) <= 614
    ensures var t := Static(Loop(Shipped(UNIT_GAIN), e), n);
            && Unclamped(t) && Abs(t.err) <= 614
            && t.err as real * t.err as real <= 25_079.0 + PowReal(8051.0 / 8102.0, n) * 352_000.0
  {
    hide Run, Static, PowReal, Unclamped;
    var drifts := seq(n, i => 0);
    ShippedLoopTracks(e, drifts, 0);
    NoDriftIsStatic(Loop(Shipped(UNIT_GAIN), e), drifts);
  }

  const WIDE_ENVELOPE := Envelope(0.106, 0.93, 230_000.0, 0)

  /** At every gain from a quarter to one and a half: any start within 479 microseconds is tracked
      forever without saturation, and never further off than 497. */
  lemma ShippedGains(kpPpm: i64, e: i64, n: nat)
    requires 250_000 <= kpPpm <= 1_500_000 && Abs(e) <= 479
    ensures var t := Static(Loop(Shipped(kpPpm), e), n);
            Unclamped(t) && Abs(t.err) <= 497
  {
    hide Static, RestLevel, Level, Decide, Tame, Unclamped, WellStarted, Abs, Cost;
    WideStart(kpPpm, e);
    FilteredLoopSettles(Loop(Shipped(kpPpm), e), WIDE_ENVELOPE, n);
    IntegerSquare(Static(Loop(Shipped(kpPpm), e), n).err, 497, 247_400.0);
  }

  // ---------------------------------------------------------------- the starts

  lemma StartEnergy(k: real, g: real, x: real, ceiling: real)
    requires 0.0 < k && x * x <= ceiling
    ensures Energy(k, g, x, 0.0) <= k * ceiling
  {
    EnergyUnfolds(k, g, x, 0.0);
    EnergyAtRest(k, Cross(k, g), Rest(k, g), x, Energy(k, g, x, 0.0));
    MulLeReal(x * x, ceiling, k);
    assert x * x * k == k * (x * x) && ceiling * k == k * ceiling;
  }

  lemma EnergyAtRest(k: real, b: real, c: real, x: real, v: real)
    requires v == k * (x * x) - b * (x * 0.0) + c * (0.0 * 0.0)
    ensures v == k * (x * x)
  {
  }

  lemma ShippedFilter()
    ensures INITIAL_FILTER.Valid() && INITIAL_FILTER.Gain() == 51.0 / 4051.0
    ensures Gap(INITIAL_FILTER) >= 0.0 && CapsGain(INITIAL_FILTER, 0.106)
  {
  }

  lemma SmallSquare(e: int, radius: nat)
    requires Abs(e) <= radius
    ensures e as real * e as real <= radius as real * radius as real
  {
    var x, r := e as real, radius as real;
    ProductNonNegative(r - x, r + x);
    assert (r - x) * (r + x) == r * r - x * x;
  }

  lemma IntegerSquare(e: int, radius: nat, most: real)
    requires e as real * e as real <= most < (radius as real + 1.0) * (radius as real + 1.0)
    ensures Abs(e) <= radius
  {
    var r := radius as real + 1.0;
    SquareOrder(e as real, r);
    assert e as real != r && e as real != -r;
  }

  lemma UnitStart(e: i64, bound: nat)
    requires Abs(e) <= 614 && bound <= 2
    ensures WellStarted(Loop(Shipped(UNIT_GAIN), e), UNIT_ENVELOPE.(drift := bound))
    ensures INITIAL_FILTER.Gain() == 51.0 / 4051.0
  {
    hide Energy, RestLevel, Cost, Definite, FitsLimits, Factor, Filter.Gain, Gap, CapsGain, Abs;
    ShippedFilter();
    SmallSquare(e, 614);
    StartEnergy(51.0 / 4051.0, Factor(UNIT_GAIN), e as real, 377_000.0);
    UnitLimits(bound);
    UnitCost(bound);
    ShippedRest(Cost(UNIT_GAIN, bound));
  }

  lemma UnitLimits(bound: nat)
    requires bound <= 2
    ensures Definite(0.106, Factor(UNIT_GAIN), 1.0)
    ensures FitsLimits(UNIT_ENVELOPE.(drift := bound), Factor(UNIT_GAIN), 200)
  {
    assert Factor(UNIT_GAIN) == 1.0;
  }

  lemma UnitCost(bound: nat)
    ensures Cost(UNIT_GAIN, bound) == ((1 + bound) * (1 + bound)) as real >= 1.0
  {
    RealProduct(1 + bound, 1 + bound);
    MulLeReal(1.0, (1 + bound) as real, (1 + bound) as real);
  }

  lemma WideStart(kpPpm: i64, e: i64)
    requires 250_000 <= kpPpm <= 1_500_000 && Abs(e) <= 479
    ensures WellStarted(Loop(Shipped(kpPpm), e), WIDE_ENVELOPE)
  {
    hide Energy, RestLevel, Cost, Definite, FitsLimits, Factor, Filter.Gain, Gap, CapsGain, Abs;
    ShippedFilter();
    SmallSquare(e, 479);
    StartEnergy(51.0 / 4051.0, Factor(kpPpm), e as real, 230_000.0);
    WideFactor(kpPpm);
    WideDefinite(Factor(kpPpm));
    WideCost(kpPpm);
    ShippedRest(Cost(kpPpm, 0));
  }

  lemma WideFactor(kpPpm: i64)
    requires 250_000 <= kpPpm <= 1_500_000
    ensures 0.25 <= Factor(kpPpm) <= 1.5
  {
  }

  lemma WideDefinite(g: real)
    requires 0.25 <= g <= 1.5
    ensures Definite(0.106, g, 0.93) && FitsLimits(WIDE_ENVELOPE, g, 200)
  {
    ProductNonNegative(g - 0.25, 1.5 - g);
    assert (g - 0.25) * (1.5 - g) == 1.75 * g - 0.375 - g * g;
    assert (1.0 - g) * (1.0 - g) == 1.0 - 2.0 * g + g * g;
  }

  lemma WideMiss(kpPpm: i64)
    requires 250_000 <= kpPpm <= 1_500_000
    ensures 1.0 <= Miss(kpPpm, 0) <= 2.5
  {
  }

  lemma WideCost(kpPpm: i64)
    requires 250_000 <= kpPpm <= 1_500_000
    ensures 1.0 <= Cost(kpPpm, 0) <= 6.25
  {
    hide Cost, Miss, Factor;
    WideMiss(kpPpm);
    CostIsSquare(kpPpm, 0);
    SquareWithin(Miss(kpPpm, 0));
  }

  lemma SquareWithin(m: real)
    requires 1.0 <= m <= 2.5
    ensures 1.0 <= m * m <= 6.25
  {
    ProductNonNegative(m - 1.0, m + 1.0);
    ProductNonNegative(2.5 - m, 2.5 + m);
    assert (m - 1.0) * (m + 1.0) == m * m - 1.0 && (2.5 - m) * (2.5 + m) == 6.25 - m * m;
  }

  // ---------------------------------------------------------------- the levels

  lemma ShippedLevel(n: nat, c: real)
    requires 1.0 <= c
    ensures Level(51.0 / 4051.0, c, 377_000.0, n) <= 25_079.0 * c + PowReal(8051.0 / 8102.0, n) * 352_000.0
  {
    hide RestLevel, PowReal, Level;
    var k, rate := 51.0 / 4051.0, 8051.0 / 8102.0;
    var rest, power := RestLevel(k, c), PowReal(rate, n);
    ShippedRest(c);
    PowRange(rate, n);
    Remaining(power, rest);
    LevelAtRate(k, c, 377_000.0, n, rate);
    SumBelow(rest, power * (377_000.0 - rest), 25_079.0 * c, power * 352_000.0);
  }

  lemma SumBelow(a: real, b: real, c: real, d: real)
    requires a <= c && b <= d
    ensures a + b <= c + d
  {
  }

  lemma LevelAtRate(k: real, c: real, b: real, n: nat, rate: real)
    requires k > 0.0 && rate == 1.0 - k / 2.0
    ensures Level(k, c, b, n) == RestLevel(k, c) + PowReal(rate, n) * (b - RestLevel(k, c))
  {
  }

  lemma ShippedRest(c: real)
    requires 1.0 <= c
    ensures 25_078.0 * c <= RestLevel(51.0 / 4051.0, c) <= 25_079.0 * c
  {
    var unit := RestLevel(51.0 / 4051.0, 1.0);
    assert 25_078.0 <= unit <= 25_079.0;
    MulLeReal(25_078.0, unit, c);
    MulLeReal(unit, 25_079.0, c);
  }

  lemma Remaining(power: real, rest: real)
    requires 0.0 <= power && 25_000.0 <= rest
    ensures power * (377_000.0 - rest) <= power * 352_000.0
  {
    MulLeReal(377_000.0 - rest, 352_000.0, power);
  }
}
