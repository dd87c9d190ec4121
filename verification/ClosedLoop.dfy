/** The controller without its filter, closed through the follower it corrects
    (control.rs with `correct_follower` of threading.rs). */
module ClosedLoop {
  import opened Machine
  import opened Control

  const UNIT_GAIN: i64 := 1_000_000

  /** A controller and the raw error it will see next. */
  datatype Loop = Loop(ctl: Ctl, err: i64)

  /** One cycle: decide, correct, and let the master gain `drift` on the follower.
      Control.CorrectionClosesLoop ties this to the clocks themselves. */
  function Cycle(s: Loop, drift: int): (t: Loop)
    requires s.ctl.Valid()
    ensures t.ctl.Valid()
  {
    DecideValid(s.ctl, s.err);
    var (ctl, step) := Decide(s.ctl, s.err);
    Loop(ctl, WrapS(s.err - step + drift))
  }

  /** A whole run, one drift a cycle. */
  function Run(s: Loop, drifts: seq<int>): (t: Loop)
    requires s.ctl.Valid()
    ensures t.ctl.Valid()
    decreases |drifts|
  {
    if drifts == [] then s else Run(Cycle(s, drifts[0]), drifts[1..])
  }

  /** `n` cycles on clocks of the same rate. */
  function Static(s: Loop, n: nat): (t: Loop)
    requires s.ctl.Valid()
    ensures t.ctl.Valid()
  {
    if n == 0 then s else Cycle(Static(s, n - 1), 0)
  }

  lemma {:induction false} RunExtends(s: Loop, drifts: seq<int>, drift: int)
    requires s.ctl.Valid()
    ensures Run(s, drifts + [drift]) == Cycle(Run(s, drifts), drift)
    decreases |drifts|
  {
    hide Cycle;
    var all := drifts + [drift];
    if drifts == [] {
      assert all[1..] == [];
    } else {
      assert all[1..] == drifts[1..] + [drift];
      RunExtends(Cycle(s, drifts[0]), drifts[1..], drift);
    }
  }

  lemma {:induction false} NoDriftIsStatic(s: Loop, drifts: seq<int>)
    requires s.ctl.Valid() && forall k | 0 <= k < |drifts| :: drifts[k] == 0
    ensures Run(s, drifts) == Static(s, |drifts|)
  {
    hide Cycle;
    if drifts != [] {
      var init := drifts[..|drifts| - 1];
      NoDriftIsStatic(s, init);
      assert drifts == init + [0];
      RunExtends(s, init, 0);
    }
  }

  // ---------------------------------------------------------------- one step, by magnitude

  /** The size of the step for an error of size `a`, for a gain that is not negative. */
  function StepSize(kpPpm: nat, maxStep: nat, a: nat): nat {
    var s := a * kpPpm / 1_000_000;
    var c := if s > maxStep then maxStep else s;
    if c == 0 && a != 0 then 1 else c
  }

  function Sign(x: int): int {
    if x > 0 then 1 else if x < 0 then -1 else 0
  }

  /** The error times the gain fits the 64-bit product the controller computes. */
  predicate InRange(kpPpm: int, e: int) {
    FitsI64(e * kpPpm)
  }

  lemma StepBySize(kpPpm: i64, maxStep: i64, e: i64)
    requires 0 <= kpPpm && 0 <= maxStep && InRange(kpPpm, e)
    ensures ProportionalStep(kpPpm, maxStep, e) == Sign(e) * StepSize(kpPpm, maxStep, Abs(e))
  {
    hide WrapS, TruncDiv;
    SignOfProduct(e, kpPpm);
    QuotientBySize(e * kpPpm);
  }

  lemma QuotientBySize(product: int)
    requires FitsI64(product)
    ensures var q := TruncDiv(WrapS(product), 1_000_000);
            && Abs(q) == Abs(product) / 1_000_000
            && (product >= 0 ==> q >= 0) && (product <= 0 ==> q <= 0)
  {
    WrapCongruent(product, product, 0);
  }

  lemma SignOfProduct(e: int, k: nat)
    ensures Abs(e * k) == Abs(e) * k && (e >= 0 ==> e * k >= 0) && (e <= 0 ==> e * k <= 0)
  {
  }

  /** The estimate after a measurement `z`: part of the way from the old one, by the gain. */
  function Estimate(f: Filter, z: real): real
    requires f.p + f.q + f.r != 0.0
  {
    f.x + (f.p + f.q) / (f.p + f.q + f.r) * (z - f.x)
  }

  /** What the controller answers: the raw error, or with a filter the new estimate, rounded toward
      zero and saturated. */
  function Measure(c: Ctl, raw: i64): i64
    requires c.Valid()
  {
    match c.filter
    case None => raw
    case Some(f) => RealToI64(Estimate(f, raw as real))
  }

  /** The step for a measure `t`, at a gain of either sign: the size is the measure's millionth part
      times the gain, rounded down, at most the limit; the direction is that of the product, or of
      the measure where a microsecond is forced. */
  predicate Answers(kpPpm: int, maxStep: nat, t: int, step: int) {
    var size := Abs(t) * Abs(kpPpm) / 1_000_000;
    var least := if size > maxStep then maxStep else size;
    if least == 0 then step == Sign(t)
    else Abs(step) == least && (step > 0 <==> (t > 0 <==> kpPpm > 0))
  }

  /** One decision of any controller, filter or not, at any gain. */
  lemma DecisionAnswers(c: Ctl, raw: i64)
    requires c.Valid() && InRange(c.kpPpm, Measure(c, raw))
    ensures Answers(c.kpPpm, c.maxStep, Measure(c, raw), Decide(c, raw).1)
    ensures c.filter.Some? ==>
              && Decide(c, raw).0.filter.Some?
              && Decide(c, raw).0.filter.value.x == Estimate(c.filter.value, raw as real)
  {
    hide ProportionalStep, FilterUpdate, Estimate, RealToI64, Answers, InRange;
    StepAnswers(c.kpPpm, c.maxStep, Measure(c, raw));
    if c.filter.Some? {
      UpdatedEstimate(c.filter.value, raw as real);
    }
  }

  lemma UpdatedEstimate(f: Filter, z: real)
    requires f.Valid()
    ensures FilterUpdate(f, z).x == Estimate(f, z)
  {
  }

  lemma StepAnswers(kpPpm: i64, maxStep: i64, t: i64)
    requires 0 <= maxStep && InRange(kpPpm, t)
    ensures Answers(kpPpm, maxStep, t, ProportionalStep(kpPpm, maxStep, t))
  {
    hide WrapS, TruncDiv;
    QuotientBySize(t * kpPpm);
    SizeOfProduct(t, kpPpm);
  }

  lemma SizeOfProduct(t: int, k: int)
    ensures Abs(t * k) == Abs(t) * Abs(k)
    ensures t * k > 0 <==> t != 0 && k != 0 && (t > 0 <==> k > 0)
    ensures t * k == 0 <==> t == 0 || k == 0
  {
  }

  lemma RangeShrinks(kpPpm: nat, x: int, y: int)
    requires InRange(kpPpm, y) && (Abs(x) < Abs(y) || x == y)
    ensures InRange(kpPpm, x)
  {
    SignOfProduct(x, kpPpm);
    SignOfProduct(y, kpPpm);
    if Abs(x) < Abs(y) && kpPpm > 0 {
      var a, b := Abs(x), Abs(y);
      MulLe(a + 1, b, kpPpm);
      assert (a + 1) * kpPpm == a * kpPpm + kpPpm;
    }
  }

  lemma MulLe(a: int, b: int, c: nat)
    requires a <= b
    ensures a * c <= b * c
  {
  }

  /** The contrapositive: order among products is order among the factors. */
  lemma MulCancel(a: int, b: int, c: nat)
    requires a * c < b * c
    ensures a < b
  {
  }

  // ---------------------------------------------------------------- which gains contract

  predicate Shrinks(kpPpm: i64, maxStep: i64, e: i64)
    requires 0 <= maxStep
  {
    Abs(e - ProportionalStep(kpPpm, maxStep, e)) < Abs(e)
  }

  /** Every nonzero error whose product with the gain is representable gets smaller. */
  ghost predicate Contracts(kpPpm: i64, maxStep: i64)
    requires 0 <= maxStep
  {
    forall e: i64 | e != 0 && InRange(kpPpm, e) :: Shrinks(kpPpm, maxStep, e)
  }

  predicate Overshoots(kpPpm: i64, maxStep: i64, e: i64)
    requires 0 <= maxStep
  {
    var next := e - ProportionalStep(kpPpm, maxStep, e);
    (e >= 0 && next < 0) || (e <= 0 && next > 0)
  }

  /** No step carries an error of either sign through zero to the other side. */
  ghost predicate NeverOvershoots(kpPpm: i64, maxStep: i64)
    requires 0 <= maxStep
  {
    forall e: i64 | InRange(kpPpm, e) :: !Overshoots(kpPpm, maxStep, e)
  }

  lemma SmallGainStep(kpPpm: nat, maxStep: nat, a: nat)
    requires kpPpm < 2 * UNIT_GAIN || maxStep <= 1
    requires a != 0
    ensures 1 <= StepSize(kpPpm, maxStep, a) <= 2 * a - 1
  {
  }

  lemma SmallGainShrinks(kpPpm: i64, maxStep: i64, e: i64)
    requires 0 <= kpPpm && 0 <= maxStep && (kpPpm < 2 * UNIT_GAIN || maxStep <= 1)
    requires e != 0 && InRange(kpPpm, e)
    ensures Shrinks(kpPpm, maxStep, e)
  {
    StepBySize(kpPpm, maxStep, e);
    SmallGainStep(kpPpm, maxStep, Abs(e));
  }

  /** With a limit of zero every step is the forced microsecond. */
  lemma ForcedStepShrinks(kpPpm: i64, e: i64)
    requires e != 0
    ensures Shrinks(kpPpm, 0, e)
  {
  }

  lemma NegativeGainGrows(kpPpm: i64, maxStep: i64) returns (e: i64)
    requires kpPpm < 0 < maxStep
    ensures e != 0 && InRange(kpPpm, e) && !Shrinks(kpPpm, maxStep, e)
  {
    e := if kpPpm <= -1_000_000 then 1 else 1_000_000;
    var product := e * kpPpm;
    assert I64_MIN <= product <= -1_000_000;
    assert TruncDiv(WrapS(product), 1_000_000) <= -1;
  }

  lemma LargeGainStays(kpPpm: i64, maxStep: i64)
    requires 2 * UNIT_GAIN <= kpPpm && 2 <= maxStep
    ensures InRange(kpPpm, 1) && !Shrinks(kpPpm, maxStep, 1)
  {
    assert 1 * kpPpm == kpPpm;
    assert TruncDiv(WrapS(kpPpm), 1_000_000) >= 2;
  }

  /** A limit of zero leaves only the forced microsecond; otherwise the gain must not be negative
      and must stay below two, unless the limit is one microsecond. */
  predicate Contracting(kpPpm: i64, maxStep: i64) {
    maxStep == 0 || (0 <= kpPpm && (kpPpm < 2 * UNIT_GAIN || maxStep == 1))
  }

  /** The gains and limits that contract, exactly. */
  lemma ContractsExactly(kpPpm: i64, maxStep: i64)
    requires 0 <= maxStep
    ensures Contracts(kpPpm, maxStep)
       <==> Contracting(kpPpm, maxStep)
  {
    if maxStep == 0 {
      forall e: i64 | e != 0 && InRange(kpPpm, e) ensures Shrinks(kpPpm, maxStep, e) {
        ForcedStepShrinks(kpPpm, e);
      }
    } else if kpPpm < 0 {
      var e := NegativeGainGrows(kpPpm, maxStep);
    } else if kpPpm < 2 * UNIT_GAIN || maxStep == 1 {
      forall e: i64 | e != 0 && InRange(kpPpm, e) ensures Shrinks(kpPpm, maxStep, e) {
        SmallGainShrinks(kpPpm, maxStep, e);
      }
    } else {
      LargeGainStays(kpPpm, maxStep);
    }
  }

  /** Under the limit there is no room for the excess of the gain over one to reach a whole
      microsecond. */
  predicate NoRoom(kpPpm: i64, maxStep: i64) {
    maxStep == 0 || (maxStep - 1) * (kpPpm - UNIT_GAIN) < 1_000_000
  }

  lemma NoOvershoot(kpPpm: i64, maxStep: i64, e: i64)
    requires 0 <= kpPpm && 0 <= maxStep && InRange(kpPpm, e)
    requires NoRoom(kpPpm, maxStep)
    ensures !Overshoots(kpPpm, maxStep, e)
    ensures StepSize(kpPpm, maxStep, Abs(e)) <= Abs(e)
  {
    StepBySize(kpPpm, maxStep, e);
    if 0 < Abs(e) < maxStep {
      ExcessBelowOne(kpPpm, maxStep - 1, Abs(e));
    }
  }

  lemma NegativeGainHasNoRoom(kpPpm: i64, maxStep: i64)
    requires kpPpm < 0 <= maxStep
    ensures NoRoom(kpPpm, maxStep)
  {
    if maxStep > 0 {
      var away := UNIT_GAIN - kpPpm;
      MulLe(0, maxStep - 1, away);
      assert (maxStep - 1) * (kpPpm - UNIT_GAIN) == -((maxStep - 1) * away);
    }
  }

  /** A negative gain steps away from zero, or by the forced microsecond toward it. */
  lemma NegativeGainLeadsAway(kpPpm: i64, maxStep: i64, e: i64)
    requires kpPpm < 0 <= maxStep && InRange(kpPpm, e)
    ensures !Overshoots(kpPpm, maxStep, e)
  {
    hide WrapS, TruncDiv;
    SignOfProduct(e, -(kpPpm as int));
    assert e * kpPpm == -(e * -(kpPpm as int));
    QuotientBySize(e * kpPpm);
  }

  lemma ExcessBelowOne(kpPpm: nat, top: nat, e: nat)
    requires e <= top && top * (kpPpm - UNIT_GAIN) < 1_000_000
    ensures e * kpPpm / 1_000_000 <= e
  {
    var excess := kpPpm - 1_000_000;
    assert e * kpPpm == e * excess + e * 1_000_000;
    if excess > 0 {
      assert e * excess <= top * excess;
    } else {
      assert e * excess <= 0;
    }
  }

  /** The smallest error on which a gain above one gains a whole extra microsecond. */
  lemma FirstExcess(kpPpm: nat, top: nat) returns (e: nat)
    requires top * (kpPpm - UNIT_GAIN) >= 1_000_000
    ensures 1 <= e <= top && e * kpPpm / 1_000_000 >= e + 1
    ensures e * kpPpm <= kpPpm || e * kpPpm < 3_000_000_000_000
  {
    var excess := kpPpm - 1_000_000;
    assert excess > 0 && top > 0 by {
      PositiveFactors(top, excess);
    }
    e := 1;
    while e * excess < 1_000_000
      invariant 1 <= e <= top && (e == 1 || (e - 1) * excess < 1_000_000)
      decreases top - e
    {
      MulCancel(e, top, excess);
      e := e + 1;
    }
    WholeExcess(e, excess);
    if e > 1 {
      SmallProduct(e - 1, excess);
    }
  }

  lemma WholeExcess(e: nat, excess: nat)
    requires e * excess >= 1_000_000
    ensures e * (excess + 1_000_000) / 1_000_000 >= e + 1
  {
    assert e * (excess + 1_000_000) == e * excess + e * 1_000_000;
  }

  lemma SmallProduct(d: nat, excess: nat)
    requires d > 0 && excess > 0 && d * excess < 1_000_000
    ensures (d + 1) * (excess + 1_000_000) < 3_000_000_000_000
  {
    MulLe(1, d, excess);
    MulLe(1, excess, d);
    assert (d + 1) * (excess + 1_000_000) == d * excess + excess + d * 1_000_000 + 1_000_000;
  }

  lemma PositiveFactors(a: nat, b: int)
    requires a * b > 0
    ensures a > 0 && b > 0
  {
  }

  /** Overshoot, to either side, needs a gain above one and enough room under the limit for the
      excess to reach a whole microsecond. */
  lemma NeverOvershootsExactly(kpPpm: i64, maxStep: i64)
    requires 0 <= maxStep
    ensures NeverOvershoots(kpPpm, maxStep) <==> NoRoom(kpPpm, maxStep)
  {
    if kpPpm < 0 {
      NegativeGainHasNoRoom(kpPpm, maxStep);
    }
    if NoRoom(kpPpm, maxStep) {
      forall e: i64 | InRange(kpPpm, e) ensures !Overshoots(kpPpm, maxStep, e) {
        if kpPpm >= 0 {
          NoOvershoot(kpPpm, maxStep, e);
        } else {
          NegativeGainLeadsAway(kpPpm, maxStep, e);
        }
      }
    } else {
      var e := FirstExcess(kpPpm, maxStep - 1);
      StepBySize(kpPpm, maxStep, e);
      assert Overshoots(kpPpm, maxStep, e);
    }
  }

  // ---------------------------------------------------------------- whole runs, same rate

  /** Under such a gain and limit a run on clocks of one rate never changes the sign of the
      error, however long: it keeps it or loses it to zero. */
  lemma {:induction false} SignIsKept(s: Loop, n: nat)
    requires s.ctl.Valid() && s.ctl.filter.None? && 0 <= s.ctl.kpPpm
    requires NoRoom(s.ctl.kpPpm, s.ctl.maxStep) && InRange(s.ctl.kpPpm, s.err)
    ensures var t := Static(s, n);
            && t.ctl == s.ctl && InRange(t.ctl.kpPpm, t.err)
            && (Sign(t.err) == Sign(s.err) || t.err == 0)
            && Abs(t.err) <= Abs(s.err)
  {
    hide NoRoom, InRange, Cycle;
    if n > 0 {
      SignIsKept(s, n - 1);
      SideKept(Static(s, n - 1));
    }
  }

  lemma SideKept(t: Loop)
    requires t.ctl.Valid() && t.ctl.filter.None? && 0 <= t.ctl.kpPpm
    requires NoRoom(t.ctl.kpPpm, t.ctl.maxStep) && InRange(t.ctl.kpPpm, t.err)
    ensures var next := Cycle(t, 0);
            && next.ctl == t.ctl && InRange(next.ctl.kpPpm, next.err)
            && (Sign(next.err) == Sign(t.err) || next.err == 0)
            && Abs(next.err) <= Abs(t.err)
  {
    hide NoRoom, InRange, ProportionalStep, StepSize, Overshoots, WrapS;
    var size := StepSize(t.ctl.kpPpm, t.ctl.maxStep, Abs(t.err));
    NoOvershoot(t.ctl.kpPpm, t.ctl.maxStep, t.err);
    StepBySize(t.ctl.kpPpm, t.ctl.maxStep, t.err);
    SomeStep(t.ctl.kpPpm, t.ctl.maxStep, Abs(t.err));
    SameSide(t.err, size);
    RangeShrinks(t.ctl.kpPpm, Cycle(t, 0).err, t.err);
  }

  lemma SomeStep(kpPpm: nat, maxStep: nat, a: nat)
    ensures a > 0 ==> StepSize(kpPpm, maxStep, a) > 0
  {
  }

  lemma SameSide(e: i64, size: nat)
    requires size <= Abs(e) && (e != 0 ==> size > 0)
    ensures var next := WrapS(e - Sign(e) * size + 0);
            && (Sign(next) == Sign(e) || next == 0)
            && if e == 0 then next == 0 else Abs(next) < Abs(e)
  {
  }

  /** The product with the gain is representable, or the limit leaves nothing of it. */
  predicate Harmless(kpPpm: int, maxStep: int, e: int) {
    maxStep == 0 || InRange(kpPpm, e)
  }

  lemma ShrinkingCycle(s: Loop)
    requires s.ctl.Valid() && s.ctl.filter.None? && Contracting(s.ctl.kpPpm, s.ctl.maxStep)
    requires Harmless(s.ctl.kpPpm, s.ctl.maxStep, s.err)
    ensures Cycle(s, 0).ctl == s.ctl && Harmless(s.ctl.kpPpm, s.ctl.maxStep, Cycle(s, 0).err)
    ensures if s.err == 0 then Cycle(s, 0).err == 0 else Abs(Cycle(s, 0).err) < Abs(s.err)
  {
    hide InRange, ProportionalStep;
    var kpPpm, maxStep, e := s.ctl.kpPpm, s.ctl.maxStep, s.err;
    if maxStep == 0 {
      ForcedStep(kpPpm, e);
      UnfilteredCycle(s, Abs(Sign(e)));
    } else {
      StepBySize(kpPpm, maxStep, e);
      if e != 0 {
        SmallGainStep(kpPpm, maxStep, Abs(e));
      }
      UnfilteredCycle(s, StepSize(kpPpm, maxStep, Abs(e)));
      RangeShrinks(kpPpm, Cycle(s, 0).err, e);
    }
  }

  lemma ForcedStep(kpPpm: i64, e: i64)
    ensures ProportionalStep(kpPpm, 0, e) == Sign(e) == Sign(e) * Abs(Sign(e))
  {
  }

  lemma UnfilteredCycle(s: Loop, size: nat)
    requires s.ctl.Valid() && s.ctl.filter.None?
    requires ProportionalStep(s.ctl.kpPpm, s.ctl.maxStep, s.err) == Sign(s.err) * size
    requires if s.err == 0 then size == 0 else 1 <= size <= 2 * Abs(s.err) - 1
    ensures Cycle(s, 0).ctl == s.ctl
    ensures if s.err == 0 then Cycle(s, 0).err == 0 else Abs(Cycle(s, 0).err) < Abs(s.err)
  {
    ReducedError(s.err, size);
  }

  lemma ReducedError(e: i64, size: nat)
    requires if e == 0 then size == 0 else 1 <= size <= 2 * Abs(e) - 1
    ensures var next := WrapS(e - Sign(e) * size + 0);
            if e == 0 then next == 0 else Abs(next) < Abs(e)
  {
  }

  /** Every contracting gain and limit brings any error to zero within as many cycles as it has
      microseconds, and holds it there. */
  lemma {:induction false} Converges(s: Loop, n: nat)
    requires s.ctl.Valid() && s.ctl.filter.None? && Contracting(s.ctl.kpPpm, s.ctl.maxStep)
    requires Harmless(s.ctl.kpPpm, s.ctl.maxStep, s.err)
    ensures var t := Static(s, n);
            && t.ctl == s.ctl
            && Abs(t.err) <= (if n < Abs(s.err) then Abs(s.err) - n else 0)
            && Harmless(t.ctl.kpPpm, t.ctl.maxStep, t.err)
  {
    hide Cycle, Harmless, Contracting;
    if n > 0 {
      Converges(s, n - 1);
      ShrinkingCycle(Static(s, n - 1));
    }
  }

  lemma UnitGainSize(maxStep: nat, a: nat)
    requires 1 <= maxStep
    ensures StepSize(UNIT_GAIN, maxStep, a) == if a <= maxStep then a else maxStep
  {
  }

  /** At unit gain the step is the error, up to the limit. */
  lemma UnitGainStep(maxStep: i64, e: i64)
    requires 1 <= maxStep && InRange(UNIT_GAIN, e)
    ensures ProportionalStep(UNIT_GAIN, maxStep, e)
         == if Abs(e) <= maxStep then e else Sign(e) * maxStep
  {
    hide ProportionalStep, StepSize;
    StepBySize(UNIT_GAIN, maxStep, e);
    UnitGainSize(maxStep, Abs(e));
  }

  /** At unit gain the error walks straight to zero, a full step at a time: its value after
      every number of cycles, and so the cycle on which it first vanishes. */
  lemma {:induction false} UnitGainTrajectory(s: Loop, n: nat)
    requires s.ctl.Valid() && s.ctl.filter.None?
    requires s.ctl.kpPpm == UNIT_GAIN && 1 <= s.ctl.maxStep
    requires InRange(UNIT_GAIN, s.err)
    ensures var t := Static(s, n);
            && t.ctl == s.ctl
            && t.err == Sign(s.err) * (if n * s.ctl.maxStep < Abs(s.err) then Abs(s.err) - n * s.ctl.maxStep else 0)
            && (t.err == 0 <==> Abs(s.err) <= n * s.ctl.maxStep)
            && InRange(UNIT_GAIN, t.err)
  {
    if n > 0 {
      UnitGainTrajectory(s, n - 1);
      UnitGainShrink(Static(s, n - 1));
      var gone := (n - 1) * s.ctl.maxStep;
      assert n * s.ctl.maxStep == gone + s.ctl.maxStep;
      MulLe(0, n - 1, s.ctl.maxStep);
    }
  }

  lemma UnitGainShrink(s: Loop)
    requires s.ctl.Valid() && s.ctl.filter.None?
    requires s.ctl.kpPpm == UNIT_GAIN && 1 <= s.ctl.maxStep && InRange(UNIT_GAIN, s.err)
    ensures var t := Cycle(s, 0);
            && t.ctl == s.ctl && InRange(UNIT_GAIN, t.err)
            && t.err == if Abs(s.err) <= s.ctl.maxStep then 0 else s.err - Sign(s.err) * s.ctl.maxStep
  {
    hide ProportionalStep;
    UnitGainStep(s.ctl.maxStep, s.err);
  }

  // ---------------------------------------------------------------- whole runs, with drift

  ghost predicate DriftWithin(drifts: seq<int>, bound: nat) {
    forall i | 0 <= i < |drifts| :: Abs(drifts[i]) <= bound
  }

  /** Cycles after which drift of at most `bound` a cycle has the last word. */
  function SettlingCycles(e: int, maxStep: nat, bound: nat): nat
    requires bound < maxStep
  {
    if Abs(e) <= maxStep then 1 else (Abs(e) - maxStep + maxStep - bound - 1) / (maxStep - bound) + 1
  }

  /** One cycle at unit gain: a large error loses a full step, a small one everything, and
      then the drift is added. */
  lemma UnitGainCycle(s: Loop, drift: int, bound: nat)
    requires s.ctl.Valid() && s.ctl.filter.None?
    requires s.ctl.kpPpm == UNIT_GAIN && bound < s.ctl.maxStep && InRange(UNIT_GAIN, bound)
    requires InRange(UNIT_GAIN, s.err) && Abs(drift) <= bound
    ensures var t := Cycle(s, drift);
            && t.ctl == s.ctl && InRange(UNIT_GAIN, t.err)
            && Abs(t.err) <= if Abs(s.err) <= s.ctl.maxStep then bound else Abs(s.err) - s.ctl.maxStep + bound
  {
    UnitGainStep(s.ctl.maxStep, s.err);
    DriftedError(s.err, if Abs(s.err) <= s.ctl.maxStep then s.err else Sign(s.err) * s.ctl.maxStep, drift);
  }

  lemma DriftedError(e: int, step: int, drift: int)
    requires FitsI64(e - step + drift)
    ensures WrapS(e - step + drift) == e - step + drift
  {
  }

  /** At unit gain, drift slower than the step limit is held to one cycle's worth, from the
      settling cycle to the end of the run. */
  lemma {:induction false} DriftIsContained(s: Loop, drifts: seq<int>, bound: nat)
    requires s.ctl.Valid() && s.ctl.filter.None?
    requires s.ctl.kpPpm == UNIT_GAIN && bound < s.ctl.maxStep
    requires InRange(UNIT_GAIN, s.err) && InRange(UNIT_GAIN, bound)
    requires DriftWithin(drifts, bound)
    ensures SettlingCycles(s.err, s.ctl.maxStep, bound) <= |drifts|
            ==> Abs(Run(s, drifts).err) <= bound
    ensures Run(s, drifts).ctl == s.ctl
    decreases |drifts|
  {
    hide Cycle, InRange;
    if drifts != [] {
      var t := Cycle(s, drifts[0]);
      UnitGainCycle(s, drifts[0], bound);
      DriftIsContained(t, drifts[1..], bound);
      SettlingStep(s.err, t.err, s.ctl.maxStep, bound);
      if |drifts| == 1 {
        assert Run(t, drifts[1..]) == t;
      }
    }
  }

  /** A cycle that shrinks the error as above brings the settling cycle one nearer. */
  lemma SettlingStep(e: int, e': int, maxStep: nat, bound: nat)
    requires bound < maxStep
    requires Abs(e') <= if Abs(e) <= maxStep then bound else Abs(e) - maxStep + bound
    ensures Abs(e) > maxStep ==> SettlingCycles(e', maxStep, bound) < SettlingCycles(e, maxStep, bound)
    ensures Abs(e) <= maxStep ==> SettlingCycles(e', maxStep, bound) == 1
    ensures SettlingCycles(e, maxStep, bound) == 1 ==> Abs(e') <= bound
  {
    if Abs(e) > maxStep {
      var d := maxStep - bound;
      var b := Abs(e) - maxStep + d - 1;
      DivLess(if Abs(e') > maxStep then Abs(e') - maxStep + d - 1 else 0, b, d);
    }
  }

  lemma DivLess(a: nat, b: nat, d: nat)
    requires d > 0 && a + d <= b
    ensures a / d < b / d
  {
  }
}
