/** Mode B against Mode C, with the clocks frozen for the length of a cycle. */
module ModesAgree {
  import opened Machine
  import opened Cards
  import opened ModeB
  import opened ModeBBounds
  import opened Chardev
  import opened IoUringSync
  import opened ModeCBounds

  function Frozen(now: nat): nat -> Access {
    i => Access(now, now)
  }

  function Still(now: nat): nat -> nat {
    i => now
  }

  /** A Mode C cycle with every clock frozen, card by card. */
  lemma FrozenModeC(s: ModuleState, primary: nat, threshold: i64, kernelThreshold: u32, now: nat)
    requires primary < |s.cards|
    ensures var r := ModeCCycle(s, primary, threshold, kernelThreshold, Still(now), Frozen(now));
            var primaryNs := SnapshotOf(s.cards[primary], primary, now).tsfNs;
            forall i | 0 <= i < |s.cards| ::
              r.cards[i] == if i < MAX_CARDS && primary < MAX_CARDS
                            then StepCard(s.cards[i], i, primary, primaryNs, threshold, kernelThreshold, now,
                                          Access(now, now))
                            else s.cards[i]
  {
    hide SnapshotOf, StepCard, ModeCCycle, Turn;
    ModeCAt(s, primary, threshold, kernelThreshold, Still(now), Frozen(now));
  }

  // ---------------------------------------------------------------- exactly where they agree

  /** Clocks agree when they show the same at every instant. */
  ghost predicate SameClock(a: CardState, b: CardState) {
    forall now: nat :: a.Tsf(now) == b.Tsf(now)
  }

  lemma SameClockIsSameBias(a: CardState, b: CardState)
    ensures SameClock(a, b) <==> a.bias == b.bias
  {
    if SameClock(a, b) {
      assert a.Tsf(0) == b.Tsf(0);
    }
  }

  /** Whether both modes leave a card that has a VIF and can be written, `d` microseconds behind
      the primary, with the same clock. */
  predicate Agree(d: i64, threshold: u32, reached: bool) {
    || Skips(d, threshold)
    || (if reached then FitsI64(1000 * d) && (threshold == 0 || 1000 * Abs(d) != threshold) else d == 0)
  }

  lemma SettingClocks(c: CardState, now: nat, x: u64, y: u64)
    requires c.writable
    ensures c.SetTsf(now, x).bias == c.SetTsf(now, y).bias <==> x == y
    ensures c.SetTsf(now, x).bias == c.bias <==> x == c.Tsf(now)
  {
    hide WrapU;
    TsfAfterSet(c, now, x, now);
    TsfAfterSet(c, now, y, now);
    WrapCongruent(x, x, 0);
    WrapCongruent(y, y, 0);
    var k, _ := WrapQuotients(c.bias + now);
    WrapCongruent(c.Tsf(now) - now, c.bias, -k);
  }

  /** Stepping a clock by the truncated difference reaches the primary exactly when the
      nanosecond product fits. */
  lemma StepReaches(primary: u64, tsf: u64)
    ensures var d := WrapS(primary - tsf);
            WrapU(tsf + TruncDiv(ToNs(d), 1000)) == primary <==> FitsI64(1000 * d)
  {
    hide WrapS, WrapU;
    var d: int := WrapS(primary - tsf);
    var delta := ToNs(d);
    var q := TruncDiv(delta, 1000);
    var _, g := WrapQuotients(primary - tsf);
    var k, _ := WrapQuotients(tsf + q);
    if FitsI64(1000 * d) {
      WrapCongruent(d * 1000, d * 1000, 0);
      ThousandTimes(d);
      WrapCongruent(tsf + q, primary, -g);
    }
    if WrapU(tsf + q) == primary {
      WrapCongruent(d, q, -k - g);
      WrapCongruent(d, d, 0);
      assert d == q;
    }
  }

  lemma ThousandTimes(d: int)
    ensures TruncDiv(d * 1000, 1000) == d
  {
  }

  lemma OneCardAgrees(c: CardState, i: nat, p: nat, primary: u64, threshold: u32, now: nat)
    requires c.vif.Some? && c.writable && i != p
    ensures var at := Access(now, now);
            SyncCard(c, primary, threshold, at).bias
            == StepCard(c, i, p, ToNs(WrapS(primary)), threshold, threshold, now, Access(now, now)).bias
            <==> Agree(Lead(primary, c, at), threshold, true)
  {
    hide WrapS, WrapU, Below, ToNs, TruncDiv, Skips, Magnitude;
    var d: int := Lead(primary, c, Access(now, now));
    var delta := DeltaNs(primary, c.Tsf(now));
    SameDelta(primary, c, i, now);
    SkipsIsBelow(d, threshold);
    SettingClocks(c, now, primary, WrapU(c.Tsf(now) + TruncDiv(delta, 1000)));
    StepReaches(primary, c.Tsf(now));
    AtTheEdge(d, threshold);
    SameReading(primary, c.Tsf(now));
  }

  lemma SkipsIsBelow(d: i64, threshold: u32)
    ensures Skips(d, threshold) <==> Below(ToNs(d), threshold)
    ensures Below(ToNs(d), threshold) <==> threshold > 0 && Magnitude(ToNs(d)) < threshold
  {
    SkipExactly(d, threshold);
  }

  lemma SameReading(primary: u64, tsf: u64)
    ensures WrapS(primary - tsf) == 0 <==> primary == tsf
  {
  }

  /** Where Mode B writes but Mode C does not ask. */
  lemma AtTheEdge(d: int, threshold: u32)
    requires FitsI64(d)
    ensures var size := Magnitude(ToNs(d));
            && (size == threshold > 0 ==> d != 0 && (FitsI64(1000 * d) ==> 1000 * Abs(d) == threshold))
            && (size > threshold ==> FitsI64(1000 * d) ==> 1000 * Abs(d) != threshold)
            && (threshold == 0 && size <= 0 ==> (FitsI64(1000 * d) <==> d == 0))
  {
    LeastMagnitude(ToNs(d));
    NoLeastMultiple(d);
    if FitsI64(1000 * d) {
      WrapCongruent(d * 1000, d * 1000, 0);
    }
  }

  /** Over every table and every reading: after one frozen cycle of each, a card shows the same
      in both modes exactly when it is the primary, has no VIF, cannot be written, lies within
      what Mode B skips, or can be reached by Mode C, its product fits, and it is not exactly a
      positive threshold away. Beyond Mode C's reach it must already be level. */
  lemma ModesAgreeExactly(s: ModuleState, name: string, threshold: u32, now: nat, i: nat)
    requires Primary(s.cards, name).Some? && s.cards[Primary(s.cards, name).value].vif.Some?
    requires i < |s.cards|
    ensures var p, c := Primary(s.cards, name).value, s.cards[i];
            var b := SyncCycle(s, name, threshold, now, Frozen(now)).cards[i];
            var r := ModeCCycle(s, p, threshold, threshold, Still(now), Frozen(now)).cards[i];
            SameClock(b, r) <==>
            || i == p || c.vif.None? || !c.writable
            || Agree(Lead(s.cards[p].Tsf(now), c, Access(now, now)), threshold, i < MAX_CARDS && p < MAX_CARDS)
  {
    hide SyncSecondaries, SyncCard, StepCard, ModeCCycle, WrapU, WrapS, Skips, SameClock;
    var p, c := Primary(s.cards, name).value, s.cards[i];
    var v := s.cards[p].Tsf(now);
    SecondariesAt(s, p, v, threshold, Frozen(now), |s.cards|);
    FrozenModeC(s, p, threshold, threshold, now);
    SameClockIsSameBias(SyncCycle(s, name, threshold, now, Frozen(now)).cards[i],
                        ModeCCycle(s, p, threshold, threshold, Still(now), Frozen(now)).cards[i]);
    Immovable(c, i, p, v, threshold, now);
    if i != p && c.vif.Some? && c.writable {
      OneCardAgrees(c, i, p, v, threshold, now);
      OnlyModeB(c, v, threshold, now);
    }
  }

  /** Neither mode moves the primary, a card without a VIF, or one that cannot be written. */
  lemma Immovable(c: CardState, i: nat, p: nat, v: u64, threshold: u32, now: nat)
    ensures var at, primaryNs := Access(now, now), ToNs(WrapS(v));
            && (i == p ==> StepCard(c, i, p, primaryNs, threshold, threshold, now, Access(now, now)) == c)
            && (c.vif.None? || !c.writable ==>
                  && SyncCard(c, v, threshold, at).bias == c.bias
                  && StepCard(c, i, p, primaryNs, threshold, threshold, now, Access(now, now)).bias == c.bias)
  {
    hide WrapS, WrapU, Below, Magnitude;
  }

  lemma OnlyModeB(c: CardState, v: u64, threshold: u32, now: nat)
    requires c.vif.Some? && c.writable
    ensures var d := Lead(v, c, Access(now, now));
            SyncCard(c, v, threshold, Access(now, now)).bias == c.bias <==> Skips(d, threshold) || d == 0
  {
    hide WrapS, WrapU, Below, Skips;
    SkipsIsBelow(Lead(v, c, Access(now, now)), threshold);
    SettingClocks(c, now, v, v);
    SameReading(v, c.Tsf(now));
  }

  /** With no more cards than Mode C can read and no overflow, the modes part over one case:
      a card exactly a positive threshold away, which only Mode B corrects. */
  lemma ModesAgreeWithoutOverflow(s: ModuleState, name: string, threshold: u32, now: nat, i: nat)
    requires Primary(s.cards, name).Some? && s.cards[Primary(s.cards, name).value].vif.Some?
    requires i < |s.cards| <= MAX_CARDS
    requires FitsI64(1000 * Lead(s.cards[Primary(s.cards, name).value].Tsf(now), s.cards[i], Access(now, now)))
    ensures var p, c := Primary(s.cards, name).value, s.cards[i];
            var b := SyncCycle(s, name, threshold, now, Frozen(now)).cards[i];
            var r := ModeCCycle(s, p, threshold, threshold, Still(now), Frozen(now)).cards[i];
            var v := s.cards[p].Tsf(now);
            var edge := i != p && c.vif.Some? && c.writable && threshold > 0
                        && 1000 * Abs(Lead(v, c, Access(now, now))) == threshold;
            && (SameClock(b, r) <==> !edge)
            && (edge ==> b.Tsf(now) == v && r.bias == c.bias)
  {
    hide SyncCycle, StepCard, SyncCard, ModeCCycle, WrapU, WrapS, Skips, SameClock;
    var p, c := Primary(s.cards, name).value, s.cards[i];
    var v := s.cards[p].Tsf(now);
    ModesAgreeExactly(s, name, threshold, now, i);
    var d := Lead(v, c, Access(now, now));
    SkipsIsBelow(d, threshold);
    SkipRightWhenFits(d, threshold);
    if i != p && c.vif.Some? && c.writable && threshold > 0 && 1000 * Abs(d) == threshold {
      CycleAt(s, name, threshold, now, i);
      FrozenModeC(s, p, threshold, threshold, now);
      TheEdge(c, i, p, v, threshold, now);
    }
  }

  lemma CycleAt(s: ModuleState, name: string, threshold: u32, now: nat, i: nat)
    requires Primary(s.cards, name).Some? && s.cards[Primary(s.cards, name).value].vif.Some?
    requires i < |s.cards| && i != Primary(s.cards, name).value
    ensures var p := Primary(s.cards, name).value;
            SyncCycle(s, name, threshold, now, Frozen(now)).cards[i]
            == SyncCard(s.cards[i], s.cards[p].Tsf(now), threshold, Access(now, now))
  {
    hide SyncSecondaries, SyncCard;
    var p := Primary(s.cards, name).value;
    SecondariesAt(s, p, s.cards[p].Tsf(now), threshold, Frozen(now), |s.cards|);
  }

  lemma TheEdge(c: CardState, i: nat, p: nat, v: u64, threshold: u32, now: nat)
    requires c.vif.Some? && c.writable && i != p && threshold > 0
    requires 1000 * Abs(Lead(v, c, Access(now, now))) == threshold
    ensures SyncCard(c, v, threshold, Access(now, now)).Tsf(now) == v
    ensures StepCard(c, i, p, ToNs(WrapS(v)), threshold, threshold, now, Access(now, now)) == c
  {
    hide WrapS, WrapU, Below;
    var d: int := Lead(v, c, Access(now, now));
    SkipRightWhenFits(d, threshold);
    SameDelta(v, c, i, now);
    WrapCongruent(d * 1000, d * 1000, 0);
    LeastMagnitude(ToNs(d));
    TsfAfterSet(c, now, v, now);
    WrapCongruent(v, v, 0);
  }

  /** The differences from zero, in microseconds, on which a Mode C cycle leaves a card where it
      is: those whose product is within the threshold of a multiple of 2^64, or falls short of a
      whole microsecond, or is 2^63 past one. */
  predicate StaysPut(d: i64, threshold: u32) {
    var least := if threshold < 999 then 999 else threshold;
    (1000 * d + least) % TWO64 <= 2 * least || (1000 * d) % TWO64 == TWO63
  }

  /** When the primary has no VIF, Mode B refuses and changes no clock; Mode C takes the missing
      reading for time zero. For every card: whether both leave it the same clock, exactly; and
      for one that Mode C can reach, when it ends at zero, exactly. */
  lemma DownPrimary(s: ModuleState, name: string, threshold: u32, now: nat, i: nat)
    requires Primary(s.cards, name).Some? && s.cards[Primary(s.cards, name).value].vif.None?
    requires i < |s.cards|
    ensures var p, c := Primary(s.cards, name).value, s.cards[i];
            var b := SyncCycle(s, name, threshold, now, Frozen(now));
            var r := ModeCCycle(s, p, threshold, threshold, Still(now), Frozen(now)).cards[i];
            var d := Lead(0, c, Access(now, now));
            var touched := i != p && c.vif.Some? && c.writable && i < MAX_CARDS && p < MAX_CARDS;
            && b == s.(failures := s.failures + 1)
            && (SameClock(b.cards[i], r) <==> !touched || StaysPut(d, threshold))
            && (touched ==> (r.Tsf(now) == 0 <==> FitsI64(1000 * d) && (1000 * Abs(d) > threshold || d == 0)))
  {
    hide StepCard, ModeCCycle, WrapU, WrapS, SameClock, StaysPut;
    var p, c := Primary(s.cards, name).value, s.cards[i];
    FrozenModeC(s, p, threshold, threshold, now);
    ZeroTime();
    Immovable(c, i, p, 0, threshold, now);
    SameClockIsSameBias(c, ModeCCycle(s, p, threshold, threshold, Still(now), Frozen(now)).cards[i]);
    if i != p && c.vif.Some? && c.writable {
      TowardsZero(c, i, p, threshold, now);
      LeftAlone(c, i, p, threshold, now);
    }
  }

  lemma LeftAlone(c: CardState, i: nat, p: nat, threshold: u32, now: nat)
    requires c.vif.Some? && c.writable && i != p
    ensures StepCard(c, i, p, 0, threshold, threshold, now, Access(now, now)).bias == c.bias
       <==> StaysPut(Lead(0, c, Access(now, now)), threshold)
  {
    hide WrapS, WrapU, Below, ToNs, TruncDiv, Magnitude, StaysPut;
    var d: int := Lead(0, c, Access(now, now));
    ZeroTime();
    SameDelta(0, c, i, now);
    StaysPutExactly(d, threshold);
    SkipsIsBelow(d, threshold);
    var stepped := WrapU(c.Tsf(now) + TruncDiv(ToNs(d), 1000));
    SettingClocks(c, now, stepped, stepped);
    StandsStill(c.Tsf(now), ToNs(d));
  }

  lemma StaysPutExactly(d: i64, threshold: u32)
    ensures StaysPut(d, threshold) <==> Magnitude(ToNs(d)) <= threshold || Abs(ToNs(d)) < 1000
  {
    var least := if threshold < 999 then 999 else threshold;
    var k, _ := WrapQuotients(d * 1000);
    var r, delta := WrapU(d * 1000), ToNs(d);
    assert delta == if r < TWO63 then r else r - TWO64;
    NearZero(1000 * d, r, k, least + 1);
    LeastMagnitude(delta);
  }

  lemma StandsStill(tsf: u64, delta: i64)
    ensures WrapU(tsf + TruncDiv(delta, 1000)) == tsf <==> Abs(delta) < 1000
  {
    hide WrapU;
    var q := TruncDiv(delta, 1000);
    var k, _ := WrapQuotients(tsf + q);
    assert Abs(q) < TWO63;
    if q == 0 {
      WrapCongruent(tsf, tsf, 0);
    }
    assert q == 0 <==> Abs(delta) < 1000;
  }

  lemma TowardsZero(c: CardState, i: nat, p: nat, threshold: u32, now: nat)
    requires c.vif.Some? && c.writable && i != p
    ensures var d := Lead(0, c, Access(now, now));
            StepCard(c, i, p, 0, threshold, threshold, now, Access(now, now)).Tsf(now) == 0
            <==> FitsI64(1000 * d) && (1000 * Abs(d) > threshold || d == 0)
  {
    hide WrapS, WrapU, Below, ToNs, TruncDiv, Magnitude;
    var d: int := Lead(0, c, Access(now, now));
    ZeroTime();
    SameDelta(0, c, i, now);
    StepReaches(0, c.Tsf(now));
    SkipsIsBelow(d, threshold);
    SameReading(0, c.Tsf(now));
    BeyondThreshold(d, threshold);
    var stepped := WrapU(c.Tsf(now) + TruncDiv(ToNs(d), 1000));
    TsfAfterSet(c, now, stepped, now);
    WrapCongruent(stepped, stepped, 0);
  }

  lemma ZeroTime()
    ensures ToNs(WrapS(0)) == 0
  {
  }

  lemma BeyondThreshold(d: int, threshold: u32)
    requires FitsI64(d)
    ensures FitsI64(1000 * d) ==> (Magnitude(ToNs(d)) > threshold <==> 1000 * Abs(d) > threshold)
  {
    LeastMagnitude(ToNs(d));
    NoLeastMultiple(d);
    if FitsI64(1000 * d) {
      WrapCongruent(d * 1000, d * 1000, 0);
    }
  }

  // ---------------------------------------------------------------- tables on which they differ

  /** A card with a clock that shows `clock` at instant 0. */
  function Plain(i: nat, vif: Option<nat>, clock: u64): CardState {
    CardState(i, "", true, vif, clock, 0, 0, 0)
  }

  /** Cards with a VIF, the first at `lead` and the others at 0. */
  function Leading(n: nat, lead: u64): (s: ModuleState)
    ensures |s.cards| == n
    ensures forall i | 0 <= i < n :: s.cards[i] == Plain(i, Some(i), if i == 0 then lead else 0)
  {
    ModuleState(seq(n, i requires 0 <= i < n => Plain(i, Some(i), if i == 0 then lead else 0)), 0, 0, 0, 0)
  }

  ghost predicate PartWays(s: ModuleState, threshold: u32, i: nat)
    requires i < |s.cards|
  {
    !SameClock(SyncCycle(s, "", threshold, 0, Frozen(0)).cards[i],
               ModeCCycle(s, 0, threshold, threshold, Still(0), Frozen(0)).cards[i])
  }

  /** Two cards that are exactly the threshold apart. */
  lemma EdgeExample()
    ensures PartWays(Leading(2, 5), 5000, 1)
  {
    hide SyncCycle, ModeCCycle, SameClock;
    ModesAgreeExactly(Leading(2, 5), "", 5000, 0, 1);
  }

  /** A card past the 128 that Mode C can read. */
  lemma OutOfReachExample()
    ensures PartWays(Leading(129, 5), 0, 128)
  {
    hide SyncCycle, ModeCCycle, SameClock;
    ModesAgreeExactly(Leading(129, 5), "", 0, 0, 128);
  }

  /** A primary whose interface is down, and a card that shows 7 microseconds: Mode C sets it
      to zero. */
  lemma DownExample()
    ensures var s := ModuleState([Plain(0, None, 5), Plain(1, Some(1), 7)], 0, 0, 0, 0);
            && PartWays(s, 0, 1)
            && SyncCycle(s, "", 0, 0, Frozen(0)).cards[1].Tsf(0) == 7
            && ModeCCycle(s, 0, 0, 0, Still(0), Frozen(0)).cards[1].Tsf(0) == 0
  {
    hide SyncCycle, ModeCCycle, SameClock;
    var s := ModuleState([Plain(0, None, 5), Plain(1, Some(1), 7)], 0, 0, 0, 0);
    DownPrimary(s, "", 0, 0, 1);
  }
}
