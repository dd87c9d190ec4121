/** The controller's step where its limit does not act, and by how much it misses the gain times the
    measure (control.rs:56-83). */
module FreeSteps {
  import opened Machine
  import opened Control
  import opened ClosedLoop
  import opened FilterEnergy

  /** A gain in parts per million, as a factor. */
  function Factor(kpPpm: int): real {
    kpPpm as real / 1_000_000.0
  }

  /** The step the controller would take for a measure `t`, were there no limit. */
  function FreeStep(kpPpm: nat, t: int): int {
    var size := Abs(t) * kpPpm / 1_000_000;
    Sign(t) * if size == 0 then 1 else size
  }

  /** The most by which a step can miss the gain times the estimate when the master gains at most
      `drift` on the follower in a cycle: a microsecond of the estimate, one more of the product
      unless the gain is whole, and the drift. */
  function Miss(kpPpm: nat, drift: nat): real {
    Factor(kpPpm) + (if kpPpm % 1_000_000 == 0 then 0.0 else 1.0) + drift as real
  }

  function Cost(kpPpm: nat, drift: nat): (c: real)
    requires kpPpm > 0
    ensures c > 0.0
  {
    MulLessReal(0.0, Miss(kpPpm, drift), Miss(kpPpm, drift));
    Miss(kpPpm, drift) * Miss(kpPpm, drift)
  }

  // ---------------------------------------------------------------- steps under the limit

  lemma RealProduct(a: int, b: int)
    ensures (a * b) as real == a as real * b as real
  {
  }

  /** What a bound on the gain times the estimate says of the product the controller computes. */
  lemma EstimateInWords(kpPpm: nat, x: real, limit: nat)
    requires 0 < kpPpm && -(limit as real) <= Factor(kpPpm) * x <= limit as real
    ensures Abs(TruncReal(x)) * kpPpm <= limit * 1_000_000
    ensures -(limit as real * 1_000_000.0) <= x <= limit as real * 1_000_000.0
  {
    hide Factor, TruncReal;
    var t := TruncReal(x);
    FactorTimes(kpPpm, x);
    if x >= 0.0 {
      TruncProduct(t, x, kpPpm, kpPpm as real * x, limit);
    } else {
      NegatedProduct(kpPpm as real, x);
      TruncProduct(-t, -x, kpPpm, kpPpm as real * -x, limit);
    }
  }

  lemma NegatedProduct(k: real, x: real)
    ensures k * -x == -(k * x)
  {
  }

  lemma TruncProduct(t: int, x: real, kpPpm: nat, kx: real, limit: nat)
    requires 0.0 <= t as real <= x && 0 < kpPpm && kx == kpPpm as real * x && kx <= limit as real * 1_000_000.0
    ensures t * kpPpm <= limit * 1_000_000 && x <= limit as real * 1_000_000.0
  {
    RealProduct(t, kpPpm);
    UnderProduct(t as real, x, kpPpm as real, kx);
  }

  lemma UnderProduct(t: real, x: real, k: real, kx: real)
    requires 0.0 <= t <= x && 1.0 <= k && kx == k * x
    ensures t * k <= kx && x <= kx
  {
    MulLeReal(t, x, k);
    MulLeReal(1.0, k, x);
  }

  /** A product within the limit makes a step that is not clamped. */
  lemma FreeStepIs(kpPpm: i64, maxStep: i64, t: i64)
    requires 0 < kpPpm && 1 <= maxStep && InRange(kpPpm, t) && Abs(t) * kpPpm <= maxStep * 1_000_000
    ensures ProportionalStep(kpPpm, maxStep, t) == FreeStep(kpPpm, t)
  {
    hide ProportionalStep;
    StepBySize(kpPpm, maxStep, t);
    var size := Abs(t) * kpPpm / 1_000_000;
    assert size <= maxStep;
  }

  lemma FreeStepSize(kpPpm: nat, t: int, limit: nat)
    requires 1 <= limit && Abs(t) * kpPpm <= limit * 1_000_000
    ensures Abs(FreeStep(kpPpm, t)) <= limit
  {
    var size := Abs(t) * kpPpm / 1_000_000;
    assert size <= limit;
  }

  // ---------------------------------------------------------------- what a step misses

  lemma MissUp(kpPpm: nat, x: real)
    requires 0 < kpPpm && x >= 0.0
    ensures -Miss(kpPpm, 0) < Factor(kpPpm) * x - FreeStep(kpPpm, TruncReal(x)) as real < Miss(kpPpm, 0)
  {
    hide FreeStep, TruncReal, Factor, Miss;
    var t := TruncReal(x);
    var kt, kx := t * kpPpm, kpPpm as real * x;
    FactorTimes(kpPpm, x);
    ProductBracket(kpPpm, x, t, kt, kx);
    StepNearProduct(kpPpm, t);
    MissArithmetic(kpPpm, kx, kt, FreeStep(kpPpm, t));
  }

  lemma FactorTimes(kpPpm: nat, x: real)
    ensures Factor(kpPpm) * x == kpPpm as real * x / 1_000_000.0
  {
    var m := Factor(kpPpm);
    assert kpPpm as real == 1_000_000.0 * m;
    assert (1_000_000.0 * m) * x == 1_000_000.0 * (m * x);
  }

  lemma ProductBracket(kpPpm: nat, x: real, t: int, kt: int, kx: real)
    requires 0 < kpPpm && t as real <= x < t as real + 1.0 && kt == t * kpPpm && kx == kpPpm as real * x
    ensures kt as real <= kx < kt as real + kpPpm as real
  {
    RealProduct(t, kpPpm);
    Bracket(t as real, x, kpPpm as real, kt as real, kx);
  }

  lemma Bracket(t: real, x: real, k: real, kt: real, kx: real)
    requires k > 0.0 && t <= x < t + 1.0 && kt == t * k && kx == k * x
    ensures kt <= kx < kt + k
  {
    FractionOf(x - t, k, kx - kt);
  }

  lemma FractionOf(d: real, k: real, p: real)
    requires 0.0 <= d < 1.0 && k > 0.0 && p == d * k
    ensures 0.0 <= p < k
  {
    MulLessReal(0.0, 1.0 - d, k);
    ProductNonNegative(d, k);
  }

  lemma MissArithmetic(kpPpm: nat, kx: real, kt: int, step: int)
    requires 0 < kpPpm && kt as real <= kx < kt as real + kpPpm as real
    requires var off := kt - 1_000_000 * step;
             if kpPpm % 1_000_000 == 0 then off == 0 else -1_000_000 < off < 1_000_000
    ensures -Miss(kpPpm, 0) < kx / 1_000_000.0 - step as real < Miss(kpPpm, 0)
  {
    var off, miss := kt - 1_000_000 * step, kx / 1_000_000.0 - step as real;
    assert off as real <= 1_000_000.0 * miss < off as real + kpPpm as real;
    assert 1_000_000.0 * Factor(kpPpm) == kpPpm as real;
  }

  /** How far a free step is from the product it comes from: not at all at a whole gain. */
  lemma StepNearProduct(kpPpm: nat, t: nat)
    requires 0 < kpPpm
    ensures var off := t * kpPpm - 1_000_000 * FreeStep(kpPpm, t);
            if kpPpm % 1_000_000 == 0 then off == 0 else -1_000_000 < off < 1_000_000
  {
    if kpPpm % 1_000_000 == 0 {
      WholeGain(t, kpPpm / 1_000_000);
      assert t * kpPpm == t * (kpPpm / 1_000_000) * 1_000_000;
    } else if t > 0 {
      MulLe(1, t, kpPpm);
    }
  }

  lemma WholeGain(t: nat, m: nat)
    ensures t * (m * 1_000_000) / 1_000_000 == t * m
    ensures t > 0 && m > 0 ==> t * m > 0
  {
    assert t * (m * 1_000_000) == t * m * 1_000_000;
  }

  lemma MissWithin(kpPpm: nat, x: real, d: int, drift: nat)
    requires 0 < kpPpm && Abs(d) <= drift
    ensures var f := Factor(kpPpm) * x - FreeStep(kpPpm, TruncReal(x)) as real + d as real;
            -Miss(kpPpm, drift) < f < Miss(kpPpm, drift)
  {
    if x >= 0.0 {
      MissUp(kpPpm, x);
    } else {
      MissUp(kpPpm, -x);
      assert TruncReal(-x) == -TruncReal(x);
      assert FreeStep(kpPpm, -TruncReal(x)) == -FreeStep(kpPpm, TruncReal(x));
      assert Factor(kpPpm) * -x == -(Factor(kpPpm) * x);
    }
  }

  lemma CostIsSquare(kpPpm: nat, drift: nat)
    requires kpPpm > 0
    ensures Miss(kpPpm, drift) * Miss(kpPpm, drift) == Cost(kpPpm, drift)
  {
  }
}
