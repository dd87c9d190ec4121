/** What a Mode C cycle does to each card, and achieves on clocks that tick at one rate. */
module ModeCBounds {
  import opened Machine
  import opened Cards
  import opened ModeBBounds
  import opened Chardev
  import opened IoUringSync

  // ---------------------------------------------------------------- the cycle, card by card

  /** What a cycle does to the card at index `i`, read at `now` and adjusted at `at`. */
  function StepCard(c: CardState, i: nat, primary: nat, primaryNs: i64, threshold: i64, kernelThreshold: u32,
                    now: nat, at: Access): CardState
  {
    var snap := SnapshotOf(c, i, now);
    if Asks(snap, primary, primaryNs, threshold)
    then AdjustCard(c, OffsetNs(primaryNs, snap), kernelThreshold, at) else c
  }

  /** The place in the batch of what is asked of card `i`. */
  function Turn(cards: seq<CardState>, i: nat, primary: nat, primaryNs: i64, threshold: i64,
                readAt: nat -> nat): (k: nat)
    requires i <= |cards|
    ensures k <= i
  {
    |Adjustments(Snapshots(cards, readAt, i), primary, primaryNs, threshold)|
  }

  /** The first `n` cards stepped, the others as they were. */
  ghost predicate Stepped(was: seq<CardState>, r: seq<CardState>, n: nat, primary: nat, primaryNs: i64,
                          threshold: i64, kernelThreshold: u32, readAt: nat -> nat, writeAt: nat -> Access)
  {
    && |r| == |was|
    && forall i | 0 <= i < |was| ::
         var at := writeAt(Turn(was, i, primary, primaryNs, threshold, readAt));
         r[i] == if i < n then StepCard(was[i], i, primary, primaryNs, threshold, kernelThreshold, readAt(i), at)
                 else was[i]
  }

  lemma {:induction false} AskedAt(s: ModuleState, n: nat, primary: nat, primaryNs: i64, threshold: i64,
                                   kernelThreshold: u32, readAt: nat -> nat, writeAt: nat -> Access)
    requires n <= |s.cards|
    ensures var adjs := Adjustments(Snapshots(s.cards, readAt, n), primary, primaryNs, threshold);
            Stepped(s.cards, WriteEntries(s, Stamp(adjs, writeAt), kernelThreshold).cards, n,
                    primary, primaryNs, threshold, kernelThreshold, readAt, writeAt)
  {
    hide *;
    if n > 0 {
      AskedAt(s, n - 1, primary, primaryNs, threshold, kernelThreshold, readAt, writeAt);
      LastAsked(s.cards, n, primary, primaryNs, threshold, readAt);
      var before := Adjustments(Snapshots(s.cards, readAt, n - 1), primary, primaryNs, threshold);
      var snap := SnapshotOf(s.cards[n - 1], n - 1, readAt(n - 1));
      OneMoreAsked(s, before, Adjustment(n - 1, OffsetNs(primaryNs, snap)), kernelThreshold, writeAt);
      TurnIs(s.cards, n - 1, primary, primaryNs, threshold, readAt);
      StepOne(s.cards, WriteEntries(s, Stamp(before, writeAt), kernelThreshold).cards, n - 1,
              primary, primaryNs, threshold, kernelThreshold, readAt, writeAt);
    } else {
      NothingAsked(s, primary, primaryNs, threshold, kernelThreshold, readAt, writeAt);
    }
  }

  lemma TurnIs(cards: seq<CardState>, i: nat, primary: nat, primaryNs: i64, threshold: i64, readAt: nat -> nat)
    requires i <= |cards|
    ensures Turn(cards, i, primary, primaryNs, threshold, readAt)
         == |Adjustments(Snapshots(cards, readAt, i), primary, primaryNs, threshold)|
  {
  }

  lemma StepOne(was: seq<CardState>, r: seq<CardState>, n: nat, primary: nat, primaryNs: i64, threshold: i64,
                kernelThreshold: u32, readAt: nat -> nat, writeAt: nat -> Access)
    requires n < |was| && Stepped(was, r, n, primary, primaryNs, threshold, kernelThreshold, readAt, writeAt)
    ensures var snap := SnapshotOf(was[n], n, readAt(n));
            var at := writeAt(Turn(was, n, primary, primaryNs, threshold, readAt));
            var next := if Asks(snap, primary, primaryNs, threshold)
                        then r[n := AdjustCard(r[n], OffsetNs(primaryNs, snap), kernelThreshold, at)] else r;
            Stepped(was, next, n + 1, primary, primaryNs, threshold, kernelThreshold, readAt, writeAt)
  {
    hide Asks, AdjustCard, OffsetNs, SnapshotOf, Turn;
  }

  lemma NothingAsked(s: ModuleState, primary: nat, primaryNs: i64, threshold: i64, kernelThreshold: u32,
                     readAt: nat -> nat, writeAt: nat -> Access)
    ensures var adjs := Adjustments(Snapshots(s.cards, readAt, 0), primary, primaryNs, threshold);
            Stepped(s.cards, WriteEntries(s, Stamp(adjs, writeAt), kernelThreshold).cards, 0,
                    primary, primaryNs, threshold, kernelThreshold, readAt, writeAt)
  {
    hide StepCard, Turn;
  }

  lemma OneMoreAsked(s: ModuleState, before: seq<Adjustment>, a: Adjustment, threshold: u32, writeAt: nat -> Access)
    requires a.cardIndex < |s.cards|
    ensures var was := WriteEntries(s, Stamp(before, writeAt), threshold).cards;
            WriteEntries(s, Stamp(before + [a], writeAt), threshold).cards
            == was[a.cardIndex := AdjustCard(was[a.cardIndex], a.deltaNs, threshold, writeAt(|before|))]
  {
    hide AdjustCard, WriteEntries, Stamp;
    StampLast(before, a, writeAt);
    LastEntry(s, Stamp(before, writeAt), Entry(a, writeAt(|before|)), threshold);
  }

  lemma StampLast(before: seq<Adjustment>, a: Adjustment, writeAt: nat -> Access)
    ensures Stamp(before + [a], writeAt) == Stamp(before, writeAt) + [Entry(a, writeAt(|before|))]
  {
  }

  lemma LastEntry(s: ModuleState, es: seq<Entry>, e: Entry, threshold: u32)
    requires e.adj.cardIndex < |s.cards|
    ensures var was, i := WriteEntries(s, es, threshold).cards, e.adj.cardIndex;
            WriteEntries(s, es + [e], threshold).cards == was[i := AdjustCard(was[i], e.adj.deltaNs, threshold, e.at)]
  {
    hide AdjustCard, Below;
    assert (es + [e])[..|es|] == es;
  }

  /** What a cycle does to each card, whenever the cards are read and adjusted: nothing to one
      beyond the reader's buffer, and nothing at all if the primary lies there. */
  lemma ModeCAt(s: ModuleState, primary: nat, threshold: i64, kernelThreshold: u32,
                readAt: nat -> nat, writeAt: nat -> Access)
    requires primary < |s.cards|
    ensures var r := ModeCCycle(s, primary, threshold, kernelThreshold, readAt, writeAt);
            var primaryNs := SnapshotOf(s.cards[primary], primary, readAt(primary)).tsfNs;
            forall i | 0 <= i < |s.cards| ::
              var at := writeAt(Turn(s.cards, i, primary, primaryNs, threshold, readAt));
              r.cards[i] == if i < MAX_CARDS && primary < MAX_CARDS
                            then StepCard(s.cards[i], i, primary, primaryNs, threshold, kernelThreshold, readAt(i),
                                          at)
                            else s.cards[i]
  {
    hide SnapshotOf, StepCard, Turn, Asked, Adjustments, Snapshots, WriteEntries, Stamp;
    var n := if |s.cards| < MAX_CARDS then |s.cards| else MAX_CARDS;
    var primaryNs := SnapshotOf(s.cards[primary], primary, readAt(primary)).tsfNs;
    AskedOfAll(s.cards, primary, threshold, readAt);
    if primary < MAX_CARDS {
      AskedAt(s, n, primary, primaryNs, threshold, kernelThreshold, readAt, writeAt);
    } else {
      NothingWritten(s, kernelThreshold, writeAt);
    }
  }

  lemma AskedOfAll(cards: seq<CardState>, primary: nat, threshold: i64, readAt: nat -> nat)
    requires primary < |cards|
    ensures var n := if |cards| < MAX_CARDS then |cards| else MAX_CARDS;
            var primaryNs := SnapshotOf(cards[primary], primary, readAt(primary)).tsfNs;
            Asked(cards, primary, threshold, readAt)
            == if primary < MAX_CARDS then Adjustments(Snapshots(cards, readAt, n), primary, primaryNs, threshold)
               else []
  {
    hide SnapshotOf, FindSnapshot, Adjustments, Snapshots;
    FindsPrimary(cards, primary, readAt);
  }

  lemma NothingWritten(s: ModuleState, threshold: u32, writeAt: nat -> Access)
    ensures WriteEntries(s, Stamp([], writeAt), threshold) == s
  {
  }

  /** Nanosecond differences come out as Mode B computes them, overflow and all. */
  lemma SameDelta(primary: u64, c: CardState, i: nat, now: nat)
    requires c.vif.Some?
    ensures OffsetNs(ToNs(WrapS(primary)), SnapshotOf(c, i, now)) == DeltaNs(primary, c.Tsf(now))
  {
    hide WrapS, WrapU;
    var tsf := c.Tsf(now);
    var _, a := WrapQuotients(primary);
    var _, b := WrapQuotients(tsf);
    var _, e := WrapQuotients(WrapS(primary) * 1000);
    var _, f := WrapQuotients(WrapS(tsf) * 1000);
    var _, g := WrapQuotients(primary - tsf);
    WrapCongruent(ToNs(WrapS(primary)) - ToNs(WrapS(tsf)), WrapS(primary - tsf) * 1000,
                  -1000 * a - e + 1000 * b + f + 1000 * g);
  }

  // ---------------------------------------------------------------- how close they end up

  /** Every card that can be read is read within `lag` of the cycle's start, and each adjustment takes at most
      `delay` from its read of the clock to its write. */
  ghost predicate Prompt(readAt: nat -> nat, writeAt: nat -> Access, start: nat, lag: nat, delay: nat, n: nat) {
    && (forall i: nat | i < n && i < MAX_CARDS :: start <= readAt(i) <= start + lag)
    && (forall i: nat | i < n && i < MAX_CARDS :: Brief(writeAt(i), delay))
  }

  predicate Brief(at: Access, delay: nat) {
    at.read <= at.write <= at.read + delay
  }

  /** Where an adjusted card ends, exactly: off by how much later it was read than the primary and
      how long its adjustment took, and by what the nanosecond product lost. */
  lemma AdjustedOffset(c: CardState, p: CardState, readP: nat, readC: nat, at: Access, q: int)
    requires c.writable
    ensures var d := Lead(p.Tsf(readP), c, Access(readC, readC));
            Offset(c.SetTsf(at.write, WrapU(c.Tsf(at.read) + q)), p)
            == WrapS(readP - readC + at.read - at.write + (q - d))
  {
    hide WrapS, WrapU;
    var v, w := p.Tsf(readP), WrapU(c.Tsf(at.read) + q);
    var j, _ := WrapQuotients(p.bias + readP);
    var k, _ := WrapQuotients(c.bias + readC);
    var l, _ := WrapQuotients(c.bias + at.read);
    var m, _ := WrapQuotients(c.Tsf(at.read) + q);
    var n, _ := WrapQuotients(w - at.write);
    var _, o := WrapQuotients(v - c.Tsf(readC));
    var d: int := Lead(v, c, Access(readC, readC));
    WrapCongruent(WrapU(w - at.write) - p.bias, readP - readC + at.read - at.write + (q - d),
                  -(n + m + l + j - k + o));
  }

  lemma UntouchedOffset(c: CardState, p: CardState, readP: nat, readC: nat)
    ensures var d := Lead(p.Tsf(readP), c, Access(readC, readC));
            Offset(c, p) == WrapS(-(d as int) + (readP - readC))
  {
    hide WrapS, WrapU;
    var v := p.Tsf(readP);
    var j, _ := WrapQuotients(p.bias + readP);
    var k, _ := WrapQuotients(c.bias + readC);
    var _, o := WrapQuotients(v - c.Tsf(readC));
    var d: int := Lead(v, c, Access(readC, readC));
    WrapCongruent(c.bias - p.bias, -d + (readP - readC), -(j - k + o));
  }

  /** A step computed from a product that overflowed falls far short of the difference. */
  lemma StepFallsShort(d: int)
    requires FitsI64(d) && !FitsI64(1000 * d)
    ensures 1000 * Abs(WrapS(TruncDiv(ToNs(d), 1000) - d)) >= TWO63
  {
    hide WrapS, WrapU, TruncDiv;
    var q := TruncDiv(ToNs(d), 1000);
    var _, k := WrapQuotients(d * 1000);
    TruncBounds(ToNs(d));
    MissedBy(d, q, k);
  }

  lemma MissedBy(d: int, q: int, k: int)
    requires FitsI64(d) && k != 0 && Abs(q) <= TWO63 / 1000 && -1000 < 1000 * (q - d) + k * TWO64 < 1000
    ensures 1000 * Abs(WrapS(q - d)) >= TWO63
  {
    if q - d < -TWO63 {
      WrapCongruent(q - d, q - d + TWO64, -1);
    } else if q - d >= TWO63 {
      WrapCongruent(q - d, q - d - TWO64, 1);
    } else {
      WrapCongruent(q - d, q - d, 0);
    }
  }

  /** Where a cycle leaves a secondary it found `d` microseconds behind the primary. */
  predicate EndsWithin(off: int, d: int, threshold: i64, kernelThreshold: u32, lag: nat, delay: nat) {
    if !FitsI64(1000 * d) then 1000 * (off + lag + delay) >= TWO63
    else if 1000 * Abs(d) > threshold && 1000 * Abs(d) >= kernelThreshold then off <= lag + delay
    else 1000 * off <= (if threshold > kernelThreshold then threshold else kernelThreshold) + 1000 * lag
  }

  lemma OneCardEnds(c: CardState, p: CardState, i: nat, primary: nat, threshold: i64, kernelThreshold: u32,
                    readP: nat, readC: nat, at: Access, lag: nat, delay: nat)
    requires c.vif.Some? && c.writable && i != primary
    requires Abs(readP - readC) <= lag && Brief(at, delay)
    ensures var d := Lead(p.Tsf(readP), c, Access(readC, readC));
            var r := StepCard(c, i, primary, ToNs(WrapS(p.Tsf(readP))), threshold, kernelThreshold, readC, at);
            EndsWithin(Abs(Offset(r, p)), d, threshold, kernelThreshold, lag, delay)
  {
    hide WrapS, WrapU, ToNs, TruncDiv, Magnitude, Offset, Lead;
    var d: int := Lead(p.Tsf(readP), c, Access(readC, readC));
    IndexOf(c, i, readC);
    SameDelta(p.Tsf(readP), c, i, readC);
    LeadIs(p.Tsf(readP), c, readC);
    AdjustedEnds(c, p, readP, readC, at, lag, delay);
    UntouchedEnds(c, p, readP, readC, lag);
    if FitsI64(1000 * d) {
      ThousandFits(d);
    }
  }

  lemma LeadIs(v: u64, c: CardState, now: nat)
    ensures DeltaNs(v, c.Tsf(now)) == ToNs(Lead(v, c, Access(now, now)))
  {
  }

  lemma AdjustedEnds(c: CardState, p: CardState, readP: nat, readC: nat, at: Access, lag: nat, delay: nat)
    requires c.writable && Abs(readP - readC) <= lag && Brief(at, delay)
    ensures var d := Lead(p.Tsf(readP), c, Access(readC, readC));
            var r := c.SetTsf(at.write, WrapU(c.Tsf(at.read) + TruncDiv(ToNs(d), 1000)));
            if FitsI64(1000 * d) then Abs(Offset(r, p)) <= lag + delay
            else 1000 * (Abs(Offset(r, p)) + lag + delay) >= TWO63
  {
    hide WrapS, WrapU, ToNs, TruncDiv, Offset, Lead, CardState.SetTsf;
    var d: int := Lead(p.Tsf(readP), c, Access(readC, readC));
    var q := TruncDiv(ToNs(d), 1000);
    var skew := readP - readC + at.read - at.write;
    AdjustedOffset(c, p, readP, readC, at, q);
    if FitsI64(1000 * d) {
      ThousandFits(d);
      WrapShrinks(skew);
    } else {
      StepFallsShort(d);
      WrapTriangle(q - d, skew);
    }
  }

  lemma UntouchedEnds(c: CardState, p: CardState, readP: nat, readC: nat, lag: nat)
    requires Abs(readP - readC) <= lag
    ensures var d := Lead(p.Tsf(readP), c, Access(readC, readC));
            Abs(d) - lag <= Abs(Offset(c, p)) <= Abs(d) + lag
  {
    hide WrapS, WrapU, Offset, Lead;
    var d: int := Lead(p.Tsf(readP), c, Access(readC, readC));
    UntouchedOffset(c, p, readP, readC);
    WrapTriangle(-d, readP - readC);
    WrapTriangle(-d + (readP - readC), -(readP - readC));
    WrapNegation(d);
  }

  lemma ThousandFits(d: int)
    requires FitsI64(d) && FitsI64(1000 * d)
    ensures TruncDiv(ToNs(d), 1000) == d && Magnitude(ToNs(d)) == 1000 * Abs(d)
  {
    WrapCongruent(d * 1000, d * 1000, 0);
    LeastMagnitude(ToNs(d));
    NoLeastMultiple(d);
  }

  lemma NoLeastMultiple(d: int)
    ensures 1000 * d != -TWO63
  {
  }

  /** The secondaries within reach that are up and can be written. */
  predicate Correctable(c: CardState, i: nat, primary: nat) {
    Counted(c, i, primary) && c.writable && i < MAX_CARDS
  }

  /** A cycle that reads its cards within `lag` microseconds and needs at most `delay` for each
      adjustment, from any clock values: every secondary it can reach, up and writable, ends within
      the two of the primary, or within the larger threshold and the lag if it was left alone,
      provided the nanosecond product did not overflow, and is lost if it did; the primary and the
      cards out of reach are not touched. */
  lemma BoundedModeCCycle(s: ModuleState, primary: nat, threshold: i64, kernelThreshold: u32, start: nat,
                          readAt: nat -> nat, writeAt: nat -> Access, lag: nat, delay: nat)
    requires primary < |s.cards| && primary < MAX_CARDS && s.cards[primary].vif.Some?
    requires Prompt(readAt, writeAt, start, lag, delay, |s.cards|)
    ensures var p, v := s.cards[primary], s.cards[primary].Tsf(readAt(primary));
            var r := ModeCCycle(s, primary, threshold, kernelThreshold, readAt, writeAt);
            && r.cards[primary] == p
            && (forall i | MAX_CARDS <= i < |s.cards| :: r.cards[i] == s.cards[i])
            && forall i | 0 <= i < |s.cards| && Correctable(s.cards[i], i, primary) ::
                 var d := Lead(v, s.cards[i], Access(readAt(i), readAt(i)));
                 EndsWithin(Abs(Offset(r.cards[i], p)), d, threshold, kernelThreshold, lag, delay)
  {
    hide ModeCCycle, Offset, Lead, EndsWithin, StepCard, Turn;
    var p, readP := s.cards[primary], readAt(primary);
    var primaryNs := SnapshotOf(p, primary, readP).tsfNs;
    ModeCAt(s, primary, threshold, kernelThreshold, readAt, writeAt);
    PrimaryStays(p, primary, primaryNs, threshold, kernelThreshold, readP,
                 writeAt(Turn(s.cards, primary, primary, primaryNs, threshold, readAt)));
    forall i | 0 <= i < |s.cards| && Correctable(s.cards[i], i, primary)
      ensures var at := writeAt(Turn(s.cards, i, primary, primaryNs, threshold, readAt));
              var r := StepCard(s.cards[i], i, primary, primaryNs, threshold, kernelThreshold, readAt(i), at);
              var d := Lead(p.Tsf(readP), s.cards[i], Access(readAt(i), readAt(i)));
              EndsWithin(Abs(Offset(r, p)), d, threshold, kernelThreshold, lag, delay)
    {
      OneCardEnds(s.cards[i], p, i, primary, threshold, kernelThreshold, readP, readAt(i),
                  writeAt(Turn(s.cards, i, primary, primaryNs, threshold, readAt)), lag, delay);
    }
  }

  lemma PrimaryStays(c: CardState, i: nat, primaryNs: i64, threshold: i64, kernelThreshold: u32, now: nat, at: Access)
    ensures StepCard(c, i, i, primaryNs, threshold, kernelThreshold, now, at) == c
  {
    hide AdjustCard, OffsetNs;
  }
}
