/** The controller with its filter on, closed through the follower: the energy argument over whole runs
    of control.rs, under bounded drift. */
module KalmanLoop {
  import opened Machine
  import opened Control
  import opened ClosedLoop
  import opened FilterTheory
  import opened FilterEnergy
  import opened FreeSteps

  // ---------------------------------------------------------------- a loop under control

  /** `gainCap` bounds the gain of every update from a covariance at or below the fixed point. */
  predicate CapsGain(f: Filter, gainCap: real) {
    gainCap > 0.0 && f.q <= f.r * (gainCap * gainCap) + f.q * gainCap
  }

  lemma GainCapped(f: Filter, gainCap: real)
    requires f.Valid() && Gap(f) >= 0.0 && CapsGain(f, gainCap)
    ensures f.Gain() <= gainCap
  {
    hide FilterUpdate, Filter.Gain, Gap, CapsGain;
    var g := FilterUpdate(f, 0.0);
    GainFacts(f, 0.0);
    GapShrinks(f, 0.0);
    SquareNonNegative(1.0 - f.Gain());
    ProductNonNegative((1.0 - f.Gain()) * (1.0 - f.Gain()), Gap(f));
    UpdateKeepsNoise(f, 0.0);
    CapsCarry(f, g, gainCap);
    CapByGap(g, f.Gain(), gainCap);
  }

  lemma CapByGap(g: Filter, k: real, gainCap: real)
    requires g.q > 0.0 && g.r > 0.0 && k > 0.0 && g.p == g.r * k
    requires Gap(g) >= 0.0 && CapsGain(g, gainCap)
    ensures k <= gainCap
  {
    CapArithmetic(k, g.q, g.r, gainCap);
  }

  lemma CapArithmetic(k: real, q: real, r: real, cap: real)
    requires q > 0.0 && r > 0.0 && k > 0.0 && cap > 0.0
    requires q * r - ((r * k) * (r * k) + q * (r * k)) >= 0.0
    requires q <= r * (cap * cap) + q * cap
    ensures k <= cap
  {
  }

  /** What is known of a run beforehand: `gainCap` is any bound on the filter's gain from CapsGain
      (the gain itself at the covariance's fixed point, and always 1), `margin` the share of the
      energy's diagonal left at that gain, `ceiling` a bound on the energy per unit of gain, and
      `drift` one on what the master gains on the follower in a cycle. */
  datatype Envelope = Envelope(gainCap: real, margin: real, ceiling: real, drift: nat) {
    /** The square of the most a step can come to, over the loop gain. */
    function Reach(): real {
      gainCap * ceiling
    }

    /** The most an error may come to. */
    function Room(): real {
      9_223_362_813_482_738_953.0 - drift as real
    }
  }

  /** The steps stay under `limit`. */
  predicate StepsUnder(b: Envelope, g: real, limit: real) {
    g * b.Reach() <= b.margin * (limit * limit)
  }

  /** The limit never acts, the 64-bit product of the estimate with the gain is representable, and
      so is the error less a step and with the drift. */
  predicate FitsLimits(b: Envelope, g: real, maxStep: int) {
    && 1 <= maxStep && StepsUnder(b, g, maxStep as real) && StepsUnder(b, g, 9_223_372_036_854.0)
    && b.Room() >= 0.0 && b.ceiling <= b.margin * (b.Room() * b.Room())
  }

  /** The loop is under control: covariance at or below its fixed point, the energy definite for
      every gain to come and within `level` per unit of gain, and limits that never act. */
  ghost predicate Tame(s: Loop, k0: real, b: Envelope, level: real) {
    && s.ctl.Valid() && s.ctl.filter.Some? && 0 < s.ctl.kpPpm
    && var f, g := s.ctl.filter.value, Factor(s.ctl.kpPpm);
       && Gap(f) >= 0.0 && CapsGain(f, b.gainCap) && 0.0 < k0 <= f.Gain()
       && Definite(b.gainCap, g, b.margin)
       && Energy(f.Gain(), g, s.err as real, f.x) <= f.Gain() * level
       && 0.0 <= level <= b.ceiling
       && FitsLimits(b, g, s.ctl.maxStep)
  }

  /** The decision of a cycle whose limit does not act. */
  ghost predicate Unclamped(s: Loop) {
    && s.ctl.Valid() && s.ctl.filter.Some? && 0 < s.ctl.kpPpm
    && Decide(s.ctl, s.err).1 == FreeStep(s.ctl.kpPpm, TruncReal(FilterUpdate(s.ctl.filter.value, s.err as real).x))
  }

  lemma TameControl(s: Loop, k0: real, b: Envelope, level: real)
    requires Tame(s, k0, b, level)
    ensures s.ctl.Valid() && s.ctl.filter.Some? && 0 < s.ctl.kpPpm && 1 <= s.ctl.maxStep
    ensures s.ctl.filter.value.Valid() && Gap(s.ctl.filter.value) >= 0.0
  {
    hide Energy, Filter.Gain, Gap, Definite, CapsGain, Factor, StepsUnder, Envelope.Room;
  }

  lemma TameLimits(s: Loop, k0: real, b: Envelope, level: real)
    requires Tame(s, k0, b, level)
    ensures StepsUnder(b, Factor(s.ctl.kpPpm), s.ctl.maxStep as real)
    ensures StepsUnder(b, Factor(s.ctl.kpPpm), 9_223_372_036_854.0)
  {
    hide Energy, Filter.Gain, Gap, Definite, CapsGain, Factor, StepsUnder, Envelope.Room;
  }

  lemma TameRoom(s: Loop, k0: real, b: Envelope, level: real)
    requires Tame(s, k0, b, level)
    ensures level <= b.ceiling && 0.0 <= b.Room() && b.ceiling <= b.margin * (b.Room() * b.Room())
  {
    hide Energy, Filter.Gain, Gap, Definite, CapsGain, Factor, StepsUnder, Envelope.Room;
  }

  lemma TameDefinite(s: Loop, k0: real, b: Envelope, level: real)
    requires Tame(s, k0, b, level)
    ensures var k, g := s.ctl.filter.value.Gain(), Factor(s.ctl.kpPpm);
            && 0.0 < k < 1.0 && k <= b.gainCap && g > 0.0 && Definite(k, g, b.margin)
            && Energy(k, g, s.err as real, s.ctl.filter.value.x) <= k * level
            && 0.0 <= level && 0.0 < b.margin <= 1.0
  {
    hide Energy, FilterUpdate, Filter.Gain, Gap, CapsGain, FitsLimits;
    GainFacts(s.ctl.filter.value, 0.0);
    GainCapped(s.ctl.filter.value, b.gainCap);
    DefiniteBelow(s.ctl.filter.value.Gain(), b.gainCap, Factor(s.ctl.kpPpm), b.margin);
  }

  /** A tame loop's error is bounded by its level. */
  lemma TameError(s: Loop, k0: real, b: Envelope, level: real)
    requires Tame(s, k0, b, level)
    ensures b.margin * (s.err as real * s.err as real) <= level
    ensures Abs(s.err) + b.drift <= 9_223_362_813_482_738_953
  {
    hide Energy, Filter.Gain, Definite, Tame, Factor, Rest, Slope, StepsUnder, Envelope.Room;
    TameControl(s, k0, b, level);
    TameRoom(s, k0, b, level);
    TameDefinite(s, k0, b, level);
    var f, g, e := s.ctl.filter.value, Factor(s.ctl.kpPpm), s.err as real;
    ErrorBound(f.Gain(), g, b.margin, e, f.x);
    ErrorShare(f.Gain(), b.margin, e * e, level, Energy(f.Gain(), g, e, f.x));
    ErrorRoom(b, s.err);
  }

  lemma ErrorRoom(b: Envelope, e: int)
    requires b.margin > 0.0 && b.Room() >= 0.0
    requires b.margin * (e as real * e as real) <= b.margin * (b.Room() * b.Room())
    ensures Abs(e) + b.drift <= 9_223_362_813_482_738_953
  {
    DivideOut(b.margin, e as real * e as real, b.Room() * b.Room());
    SquareOrder(e as real, b.Room());
  }

  lemma ErrorShare(k: real, s: real, ee: real, level: real, v: real)
    requires k > 0.0 && s * (k * ee) <= v <= k * level
    ensures s * ee <= level
  {
    assert s * (k * ee) == k * (s * ee);
    DivideOut(k, s * ee, level);
  }

  /** A tame loop's next estimate, times the gain, is within a limit its envelope is under. */
  lemma TameEstimate(s: Loop, k0: real, b: Envelope, level: real, limit: real)
    requires Tame(s, k0, b, level) && limit > 0.0 && StepsUnder(b, Factor(s.ctl.kpPpm), limit)
    ensures var gx := Factor(s.ctl.kpPpm) * FilterUpdate(s.ctl.filter.value, s.err as real).x;
            -limit <= gx <= limit
  {
    hide Energy, FilterUpdate, Filter.Gain, Definite, Tame, Factor, Scaled, StepsUnder, Rest, Slope, Envelope.Room;
    TameControl(s, k0, b, level);
    TameRoom(s, k0, b, level);
    TameDefinite(s, k0, b, level);
    var f, g, e := s.ctl.filter.value, Factor(s.ctl.kpPpm), s.err as real;
    UpdateValue(f, e);
    EstimateUnder(b, f.Gain(), g, e, f.x, FilterUpdate(f, e).x, level, limit);
  }

  lemma EstimateUnder(b: Envelope, k: real, g: real, e: real, x: real, x': real, level: real, limit: real)
    requires 0.0 < k < 1.0 && k <= b.gainCap && g > 0.0 && Definite(k, g, b.margin) && limit > 0.0
    requires x' == x + k * (e - x) && 0.0 <= level <= b.ceiling
    requires Energy(k, g, e, x) <= k * level && StepsUnder(b, g, limit) && 0.0 < b.margin
    ensures -limit <= g * x' <= limit
  {
    hide Energy, Definite, StepsUnder;
    EstimateEnergy(k, g, b.margin, e, x, x', e - g * x');
    ScaleUp(k, b.gainCap, level, b.ceiling);
    UnderLimit(b, g, x', limit, k * level);
    SquareOrder(g * x', limit);
  }

  lemma EstimateEnergy(k: real, g: real, s: real, e: real, x: real, x': real, z: real)
    requires 0.0 < k < 1.0 && Definite(k, g, s) && x' == x + k * (e - x) && z == e - g * x'
    ensures s * (g * (x' * x')) <= Energy(k, g, e, x)
  {
    hide Energy, Definite, Scaled, Rest;
    EnergyScales(k, g, e, x, x', z);
    EstimateBound(k, g, s, z, x');
    EstimateShare(k, g, s, x' * x', Energy(k, g, e, x), Energy(k, g, z, x'));
  }

  lemma EstimateShare(k: real, g: real, s: real, xx: real, v: real, w: real)
    requires 0.0 < k < 1.0 && Scaled(k, v, w) && s * (Rest(k, g) * xx) <= w
    ensures s * (g * xx) <= v
  {
    assert s * (Rest(k, g) * xx) == (1.0 - k) * (s * (g * xx));
    DivideOut(1.0 - k, s * (g * xx), v);
  }

  lemma UnderLimit(b: Envelope, g: real, x: real, limit: real, most: real)
    requires g > 0.0 && b.margin > 0.0 && b.margin * (g * (x * x)) <= most <= b.Reach() && StepsUnder(b, g, limit)
    ensures (g * x) * (g * x) <= limit * limit
  {
    MulLeReal(b.margin * (g * (x * x)), b.Reach(), g);
    assert b.margin * (g * (x * x)) * g == b.margin * ((g * x) * (g * x));
    assert b.Reach() * g == g * b.Reach();
    DivideOut(b.margin, (g * x) * (g * x), limit * limit);
  }

  lemma ScaleUp(k: real, cap: real, level: real, ceiling: real)
    requires 0.0 < k <= cap && 0.0 <= level <= ceiling
    ensures k * level <= cap * ceiling
  {
    MulLeReal(k, cap, level);
    MulLeReal(level, ceiling, cap);
  }

  lemma TameDecision(s: Loop, k0: real, b: Envelope, level: real, d: int)
    requires Tame(s, k0, b, level) && Abs(d) <= b.drift
    ensures Unclamped(s)
    ensures Cycle(s, d).err
         == s.err - FreeStep(s.ctl.kpPpm, TruncReal(FilterUpdate(s.ctl.filter.value, s.err as real).x)) + d
  {
    hide Tame, StepsUnder, FilterUpdate, FreeStep, ProportionalStep, Factor, TruncReal, Abs, InRange;
    TameControl(s, k0, b, level);
    TameLimits(s, k0, b, level);
    var x' := FilterUpdate(s.ctl.filter.value, s.err as real).x;
    TameError(s, k0, b, level);
    TameEstimate(s, k0, b, level, s.ctl.maxStep as real);
    TameEstimate(s, k0, b, level, 9_223_372_036_854.0);
    DecisionOn(s, x', d);
  }

  lemma DecisionOn(s: Loop, x': real, d: int)
    requires s.ctl.Valid() && s.ctl.filter.Some? && 0 < s.ctl.kpPpm && 1 <= s.ctl.maxStep
    requires x' == FilterUpdate(s.ctl.filter.value, s.err as real).x
    requires var gx, m := Factor(s.ctl.kpPpm) * x', s.ctl.maxStep as real; -m <= gx <= m
    requires -9_223_372_036_854.0 <= Factor(s.ctl.kpPpm) * x' <= 9_223_372_036_854.0
    requires Abs(s.err) + Abs(d) <= 9_223_362_813_482_738_953
    ensures Unclamped(s) && Cycle(s, d).err == s.err - FreeStep(s.ctl.kpPpm, TruncReal(x')) + d
  {
    hide FilterUpdate, FreeStep, ProportionalStep, Factor, Filter.Gain, TruncReal, WrapS, Abs;
    StepOn(s.ctl.kpPpm, s.ctl.maxStep, x');
    SmallDifference(s.err, FreeStep(s.ctl.kpPpm, TruncReal(x')), d);
  }

  lemma StepOn(kpPpm: i64, maxStep: i64, x: real)
    requires 0 < kpPpm && 1 <= maxStep && -(maxStep as real) <= Factor(kpPpm) * x <= maxStep as real
    requires -9_223_372_036_854.0 <= Factor(kpPpm) * x <= 9_223_372_036_854.0
    ensures ProportionalStep(kpPpm, maxStep, RealToI64(x)) == FreeStep(kpPpm, TruncReal(x))
    ensures Abs(FreeStep(kpPpm, TruncReal(x))) <= 9_223_372_036_854
  {
    hide FreeStep, ProportionalStep, Factor, TruncReal;
    var t := TruncReal(x);
    EstimateInWords(kpPpm, x, maxStep);
    EstimateInWords(kpPpm, x, 9_223_372_036_854);
    SignOfProduct(t, kpPpm);
    FreeStepIs(kpPpm, maxStep, t);
    FreeStepSize(kpPpm, t, 9_223_372_036_854);
  }

  lemma SmallDifference(e: i64, t: int, d: int)
    requires Abs(e) + Abs(d) <= 9_223_362_813_482_738_953 && Abs(t) <= 9_223_372_036_854
    ensures WrapS(e - t + d) == e - t + d
  {
  }

  // ---------------------------------------------------------------- a tame loop stays tame

  lemma CycleMiss(s: Loop, k0: real, b: Envelope, level: real, d: int) returns (f: real)
    requires Tame(s, k0, b, level) && Abs(d) <= b.drift
    ensures var e, x' := s.err as real, FilterUpdate(s.ctl.filter.value, s.err as real).x;
            Cycle(s, d).err as real == e - Factor(s.ctl.kpPpm) * x' + f
    ensures -Miss(s.ctl.kpPpm, b.drift) < f < Miss(s.ctl.kpPpm, b.drift)
  {
    hide Tame, FilterUpdate, Filter.Gain, Cycle, Miss, FreeStep, Factor, TruncReal, Abs, Unclamped, Gap;
    TameControl(s, k0, b, level);
    var x' := FilterUpdate(s.ctl.filter.value, s.err as real).x;
    TameDecision(s, k0, b, level, d);
    MissWithin(s.ctl.kpPpm, x', d, b.drift);
    f := Factor(s.ctl.kpPpm) * x' - FreeStep(s.ctl.kpPpm, TruncReal(x')) as real + d as real;
  }

  lemma CycleEnergy(s: Loop, k0: real, b: Envelope, level: real, d: int)
    requires Tame(s, k0, b, level) && Abs(d) <= b.drift
    ensures var f, g, e, e' := s.ctl.filter.value, Factor(s.ctl.kpPpm), s.err as real, Cycle(s, d).err as real;
            var k := f.Gain();
            Contracted(k, Cost(s.ctl.kpPpm, b.drift), Energy(k, g, e, f.x), Energy(k, g, e', FilterUpdate(f, e).x))
  {
    hide Energy, FilterUpdate, Filter.Gain, Tame, Definite, Cycle, Cost, Miss, Contracted, Factor;
    TameControl(s, k0, b, level);
    var f, g, e, e' := s.ctl.filter.value, Factor(s.ctl.kpPpm), s.err as real, Cycle(s, d).err as real;
    var x' := FilterUpdate(f, e).x;
    TameDefinite(s, k0, b, level);
    var miss := CycleMiss(s, k0, b, level, d);
    UpdateValue(f, e);
    CostIsSquare(s.ctl.kpPpm, b.drift);
    EnergyContracts(f.Gain(), g, b.margin, e, f.x, x', miss, e', Miss(s.ctl.kpPpm, b.drift),
                    Cost(s.ctl.kpPpm, b.drift));
  }

  lemma TameEnergy(s: Loop, k0: real, b: Envelope, level: real, d: int)
    requires Tame(s, k0, b, level) && Abs(d) <= b.drift && k0 < 1.0
    ensures var g, c := FilterUpdate(s.ctl.filter.value, s.err as real), Cost(s.ctl.kpPpm, b.drift);
            && g.Valid()
            && Energy(g.Gain(), Factor(s.ctl.kpPpm), Cycle(s, d).err as real, g.x) <= g.Gain() * NextLevel(k0, c, level)
  {
    hide Energy, FilterUpdate, Filter.Gain, Gap, Definite, CapsGain, FitsLimits, NextLevel, Cycle, Cost, Contracted,
         Factor;
    var f, e, e' := s.ctl.filter.value, s.err as real, Cycle(s, d).err as real;
    var g := FilterUpdate(f, e);
    TameDefinite(s, k0, b, level);
    CycleEnergy(s, k0, b, level, d);
    TameFilter(f, e);
    LevelContracts(k0, f.Gain(), g.Gain(), Factor(s.ctl.kpPpm), e, f.x, e', g.x, Cost(s.ctl.kpPpm, b.drift), level);
  }

  /** A tame loop stays tame, one level down. */
  lemma TameStep(s: Loop, k0: real, b: Envelope, level: real, d: int)
    requires Tame(s, k0, b, level) && Abs(d) <= b.drift
    requires k0 < 1.0 && 0.0 <= NextLevel(k0, Cost(s.ctl.kpPpm, b.drift), level) <= b.ceiling
    ensures Tame(Cycle(s, d), k0, b, NextLevel(k0, Cost(s.ctl.kpPpm, b.drift), level))
  {
    hide Energy, FilterUpdate, Filter.Gain, Gap, CapsGain, Definite, NextLevel, Cost, ProportionalStep, FitsLimits,
         Factor;
    var f, e, t := s.ctl.filter.value, s.err as real, Cycle(s, d);
    var g := FilterUpdate(f, e);
    DecideValid(s.ctl, s.err);
    assert t.ctl.filter == Some(g);
    UpdateKeepsNoise(f, e);
    TameFilter(f, e);
    CapsCarry(f, g, b.gainCap);
    TameEnergy(s, k0, b, level, d);
  }

  lemma UpdateKeepsNoise(f: Filter, z: real)
    requires f.Valid()
    ensures FilterUpdate(f, z).q == f.q && FilterUpdate(f, z).r == f.r
  {
  }

  lemma CapsCarry(f: Filter, g: Filter, gainCap: real)
    requires CapsGain(f, gainCap) && g.q == f.q && g.r == f.r
    ensures CapsGain(g, gainCap)
  {
  }

  /** At or below the fixed point the covariance, and so the gain, does not fall. */
  lemma TameFilter(f: Filter, z: real)
    requires f.Valid() && Gap(f) >= 0.0
    ensures FilterUpdate(f, z).Valid() && Gap(FilterUpdate(f, z)) >= 0.0
    ensures f.Gain() <= FilterUpdate(f, z).Gain() < 1.0
  {
    hide FilterUpdate, Filter.Gain, Gap;
    GainFacts(f, z);
    GapShrinks(f, z);
    SquareNonNegative(1.0 - f.Gain());
    ProductNonNegative((1.0 - f.Gain()) * (1.0 - f.Gain()), Gap(f));
    UpdateKeepsNoise(f, z);
    GainMonotone(f, FilterUpdate(f, z));
  }

  // ---------------------------------------------------------------- whole runs

  /** What a caller can check before starting the loop. */
  ghost predicate WellStarted(s: Loop, b: Envelope) {
    && s.ctl.Valid() && s.ctl.filter.Some? && 0 < s.ctl.kpPpm
    && var k := s.ctl.filter.value.Gain();
       && 0.0 < k < 1.0
       && Tame(s, k, b, b.ceiling)
       && RestLevel(k, Cost(s.ctl.kpPpm, b.drift)) <= b.ceiling
  }

  lemma WellStartedControl(s: Loop, b: Envelope)
    requires WellStarted(s, b)
    ensures s.ctl.Valid() && s.ctl.filter.Some? && s.ctl.filter.value.Gain() > 0.0 && 0 < s.ctl.kpPpm
  {
  }

  lemma {:induction false} RunGain(s: Loop, drifts: seq<int>)
    requires s.ctl.Valid()
    ensures Run(s, drifts).ctl.kpPpm == s.ctl.kpPpm
    decreases |drifts|
  {
    hide Decide;
    if drifts != [] {
      DecideValid(s.ctl, s.err);
      RunGain(Cycle(s, drifts[0]), drifts[1..]);
    }
  }

  /** A well-started loop, drifting by at most the envelope's worth in each cycle, runs forever
      without its limit acting, and its squared error, a margin of it, stays under a level that
      falls geometrically to the rest level of the first gain. */
  lemma {:induction false} FilteredLoopTracks(s: Loop, b: Envelope, drifts: seq<int>)
    requires WellStarted(s, b) && DriftWithin(drifts, b.drift)
    ensures var k, t := s.ctl.filter.value.Gain(), Run(s, drifts);
            var level := Level(k, Cost(s.ctl.kpPpm, b.drift), b.ceiling, |drifts|);
            && Tame(t, k, b, level)
            && Unclamped(t)
            && b.margin * (t.err as real * t.err as real) <= level <= b.ceiling
  {
    hide Tame, Filter.Gain, NextLevel, RestLevel, Level, Cycle, Cost, Run, Unclamped;
    var k, c, n := s.ctl.filter.value.Gain(), Cost(s.ctl.kpPpm, b.drift), |drifts|;
    var level := Level(k, c, b.ceiling, n);
    LevelFacts(k, c, b.ceiling, n);
    if n == 0 {
      NoCycles(s);
      assert Tame(Run(s, drifts), k, b, level);
    } else {
      var init := drifts[..n - 1];
      FilteredLoopTracks(s, b, init);
      RunGain(s, init);
      LevelFacts(k, c, b.ceiling, n - 1);
      TameStep(Run(s, init), k, b, Level(k, c, b.ceiling, n - 1), drifts[n - 1]);
      RunExtends(s, init, drifts[n - 1]);
      assert drifts == init + [drifts[n - 1]];
    }
    TameDecision(Run(s, drifts), k, b, level, 0);
    TameError(Run(s, drifts), k, b, level);
  }

  lemma NoCycles(s: Loop)
    requires s.ctl.Valid()
    ensures Run(s, []) == s
  {
  }

  // ---------------------------------------------------------------- runs from the fixed point

  /** At the covariance's fixed point the gain is the same in every cycle. */
  lemma {:induction false} FixedGain(s: Loop, drifts: seq<int>)
    requires s.ctl.Valid() && s.ctl.filter.Some? && Gap(s.ctl.filter.value) == 0.0
    ensures var f, t := s.ctl.filter.value, Run(s, drifts).ctl;
            t.filter.Some? && t.filter.value.p == f.p && t.filter.value.q == f.q && t.filter.value.r == f.r
    decreases |drifts|
  {
    hide FilterUpdate, Filter.Gain, Gap, ProportionalStep;
    if drifts != [] {
      var f, g := s.ctl.filter.value, FilterUpdate(s.ctl.filter.value, s.err as real);
      GapShrinks(f, s.err as real);
      UpdateKeepsNoise(f, s.err as real);
      SameGap(f, g);
      FixedGain(Cycle(s, drifts[0]), drifts[1..]);
    }
  }

  lemma SameGap(f: Filter, g: Filter)
    requires f.p == g.p && f.q == g.q && f.r == g.r
    ensures Gap(f) == Gap(g)
    ensures f.p + f.q + f.r != 0.0 ==> f.Gain() == g.Gain()
  {
  }

  /** The energy of a loop at its present gain. */
  function LoopEnergy(s: Loop): real
    requires s.ctl.filter.Some? && s.ctl.Valid()
  {
    Energy(s.ctl.filter.value.Gain(), Factor(s.ctl.kpPpm), s.err as real, s.ctl.filter.value.x)
  }

  /** The larger of a loop's energy and the level at which its energy rests. */
  function Peak(s: Loop, drift: nat): (peak: real)
    requires s.ctl.filter.Some? && s.ctl.Valid() && 0 < s.ctl.kpPpm
    ensures s.ctl.filter.value.Gain() > 0.0
  {
    GainFacts(s.ctl.filter.value, 0.0);
    var k := s.ctl.filter.value.Gain();
    var rest := k * RestLevel(k, Cost(s.ctl.kpPpm, drift));
    if LoopEnergy(s) > rest then LoopEnergy(s) else rest
  }

  /** The envelope of a loop that starts at the fixed point. */
  function FixedEnvelope(s: Loop, margin: real, drift: nat): Envelope
    requires s.ctl.filter.Some? && s.ctl.Valid() && 0 < s.ctl.kpPpm
  {
    var peak := Peak(s, drift);
    var k := s.ctl.filter.value.Gain();
    Envelope(k, margin, peak / k, drift)
  }

  /** At the fixed point, with the energy and its rest value both small enough for the limit: the
      limit never acts, the energy never exceeds the larger of the two, and every cycle contracts
      it. Nothing is asked of the energy's size but that. */
  lemma FixedPointRun(s: Loop, margin: real, drift: nat, drifts: seq<int>, d: int)
    requires s.ctl.Valid() && s.ctl.filter.Some? && 0 < s.ctl.kpPpm
    requires Gap(s.ctl.filter.value) == 0.0
    requires Definite(s.ctl.filter.value.Gain(), Factor(s.ctl.kpPpm), margin)
    requires FitsLimits(FixedEnvelope(s, margin, drift), Factor(s.ctl.kpPpm), s.ctl.maxStep)
    requires DriftWithin(drifts, drift) && Abs(d) <= drift
    ensures var k, t := s.ctl.filter.value.Gain(), Run(s, drifts);
            && Unclamped(t)
            && LoopEnergy(t) <= Peak(s, drift)
            && Cycle(t, d).ctl.filter.Some?
            && Contracted(k, Cost(s.ctl.kpPpm, drift), LoopEnergy(t), LoopEnergy(Cycle(t, d)))
  {
    hide Energy, FilterUpdate, Filter.Gain, Gap, CapsGain, Definite, NextLevel, RestLevel, Level, Run, Cycle, Peak,
         FitsLimits, Factor, Cost, Contracted, Unclamped;
    var f, b := s.ctl.filter.value, FixedEnvelope(s, margin, drift);
    var k := f.Gain();
    GainFacts(f, 0.0);
    FixedPointStart(s, margin, drift);
    FilteredLoopTracks(s, b, drifts);
    var t := Run(s, drifts);
    FixedGain(s, drifts);
    RunGain(s, drifts);
    SameGap(f, t.ctl.filter.value);
    var level := Level(k, Cost(s.ctl.kpPpm, drift), b.ceiling, |drifts|);
    EnergyUnderCeiling(LoopEnergy(t), k, level, b.ceiling, Peak(s, drift));
    FixedPointCycle(t, k, b, level, d);
  }

  lemma FixedPointStart(s: Loop, margin: real, drift: nat)
    requires s.ctl.Valid() && s.ctl.filter.Some? && 0 < s.ctl.kpPpm
    requires Gap(s.ctl.filter.value) == 0.0
    requires Definite(s.ctl.filter.value.Gain(), Factor(s.ctl.kpPpm), margin)
    requires FitsLimits(FixedEnvelope(s, margin, drift), Factor(s.ctl.kpPpm), s.ctl.maxStep)
    ensures var b := FixedEnvelope(s, margin, drift);
            WellStarted(s, b) && s.ctl.filter.value.Gain() * b.ceiling == Peak(s, drift)
  {
    hide Energy, FilterUpdate, Filter.Gain, Gap, FitsLimits, RestLevel, CapsGain, Peak, Definite, Factor, Cost;
    var f := s.ctl.filter.value;
    GainFacts(f, 0.0);
    PeakBounds(s, drift);
    FixedCap(f);
    var rest := RestLevel(f.Gain(), Cost(s.ctl.kpPpm, drift));
    CeilingArithmetic(f.Gain(), Peak(s, drift), Peak(s, drift) / f.Gain(), rest);
  }

  lemma PeakBounds(s: Loop, drift: nat)
    requires s.ctl.Valid() && s.ctl.filter.Some? && 0 < s.ctl.kpPpm
    ensures var k := s.ctl.filter.value.Gain();
            LoopEnergy(s) <= Peak(s, drift) && k * RestLevel(k, Cost(s.ctl.kpPpm, drift)) <= Peak(s, drift)
    ensures var k := s.ctl.filter.value.Gain(); RestLevel(k, Cost(s.ctl.kpPpm, drift)) > 0.0
  {
    hide Energy, Filter.Gain, RestLevel, Cost;
    GainFacts(s.ctl.filter.value, 0.0);
    RestIsFixed(s.ctl.filter.value.Gain(), Cost(s.ctl.kpPpm, drift));
  }

  lemma CeilingArithmetic(k: real, peak: real, ceiling: real, rest: real)
    requires 0.0 < k < 1.0 && ceiling == peak / k && k * rest <= peak
    ensures k * ceiling == peak && rest <= ceiling
  {
    assert k * ceiling == peak;
    DivideOut(k, rest, ceiling);
  }

  /** At the fixed point the gain caps itself. */
  lemma FixedCap(f: Filter)
    requires f.Valid() && Gap(f) == 0.0
    ensures CapsGain(f, f.Gain())
  {
  }

  lemma EnergyUnderCeiling(v: real, k: real, level: real, ceiling: real, mm: real)
    requires k > 0.0 && v <= k * level && level <= ceiling && k * ceiling == mm
    ensures v <= mm
  {
    MulLeReal(level, ceiling, k);
    calc { v; <= k * level; level * k; <= ceiling * k; k * ceiling; mm; }
  }

  lemma FixedPointCycle(t: Loop, k: real, b: Envelope, level: real, d: int)
    requires Tame(t, k, b, level) && Abs(d) <= b.drift
    requires Gap(t.ctl.filter.value) == 0.0 && t.ctl.filter.value.Gain() == k
    ensures Cycle(t, d).ctl.filter.Some?
    ensures Contracted(k, Cost(t.ctl.kpPpm, b.drift), LoopEnergy(t), LoopEnergy(Cycle(t, d)))
  {
    hide Energy, FilterUpdate, Filter.Gain, Gap, CapsGain, ProportionalStep, Definite, Contracted, Cost, Factor,
         FitsLimits;
    var f, e, u := t.ctl.filter.value, t.err as real, Cycle(t, d);
    var g := FilterUpdate(f, e);
    DecideValid(t.ctl, t.err);
    assert u.ctl.filter == Some(g);
    GainFacts(f, e);
    GapShrinks(f, e);
    UpdateKeepsNoise(f, e);
    SameGap(f, g);
    CycleEnergy(t, k, b, level, d);
  }

  // ---------------------------------------------------------------- static offsets

  /** The same for a static offset. */
  lemma {:induction false} FilteredLoopSettles(s: Loop, b: Envelope, n: nat)
    requires WellStarted(s, b)
    ensures var k, t := s.ctl.filter.value.Gain(), Static(s, n);
            var level := Level(k, Cost(s.ctl.kpPpm, b.drift), b.ceiling, n);
            Tame(t, k, b, level) && Unclamped(t) && b.margin * (t.err as real * t.err as real) <= level <= b.ceiling
  {
    hide Filter.Gain, Level, Run, Static, Tame, Unclamped, WellStarted, Cost;
    WellStartedControl(s, b);
    var drifts := seq(n, i => 0);
    FilteredLoopTracks(s, b, drifts);
    NoDriftIsStatic(s, drifts);
  }
}
