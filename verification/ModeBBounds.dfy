/** What a Mode B cycle achieves on clocks that tick at one rate, whatever they showed. */
module ModeBBounds {
  import opened Machine
  import opened Cards
  import opened ModeB

  // ---------------------------------------------------------------- circular distance

  lemma WrapShrinks(x: int)
    ensures Abs(WrapS(x)) <= Abs(x)
  {
  }

  lemma WrapTriangle(x: int, y: int)
    ensures Abs(WrapS(x + y)) <= Abs(WrapS(x)) + Abs(y)
    ensures Abs(WrapS(x)) <= Abs(WrapS(x + y)) + Abs(y)
  {
    hide WrapS, WrapU;
    var _, k := WrapQuotients(x);
    WrapCongruent(x + y, WrapS(x) + y, k);
    WrapShrinks(WrapS(x) + y);
    var _, m := WrapQuotients(x + y);
    WrapCongruent(x, WrapS(x + y) - y, m);
    WrapShrinks(WrapS(x + y) - y);
  }

  lemma WrapNegation(d: i64)
    ensures Abs(WrapS(-(d as int))) == Abs(d)
  {
  }

  /** How far `c` runs ahead of `p`, the short way round the counter. */
  function Offset(c: CardState, p: CardState): i64 {
    WrapS(c.bias - p.bias)
  }

  /** Clocks of one rate stay as far apart as they are. */
  lemma OffsetConstant(c: CardState, p: CardState, now: nat)
    ensures WrapS(c.Tsf(now) - p.Tsf(now)) == Offset(c, p)
  {
    hide WrapS, WrapU;
    var j, _ := WrapQuotients(c.bias + now);
    var k, _ := WrapQuotients(p.bias + now);
    WrapCongruent(c.Tsf(now) - p.Tsf(now), c.bias - p.bias, k - j);
  }

  // ---------------------------------------------------------------- the skip decision

  /** Where the nanosecond product fits, the skip compares the true distance. */
  lemma SkipRightWhenFits(d: i64, threshold: u32)
    requires FitsI64(1000 * d)
    ensures Below(ToNs(d), threshold) <==> threshold > 0 && 1000 * Abs(d) < threshold
  {
    WrapCongruent(d * 1000, d * 1000, 0);
    if ToNs(d) < 0 {
      var n := -(ToNs(d) as int);
      assert n != TWO63;
      WrapCongruent(n, n, 0);
    }
  }

  /** The product of the difference lands within the threshold of a multiple of 2^64, or 2^63
      past one. */
  predicate Skips(d: i64, threshold: u32) {
    && threshold > 0
    && ((1000 * d + threshold - 1) % TWO64 <= 2 * threshold - 2 || (1000 * d) % TWO64 == TWO63)
  }

  /** Which differences are skipped, over all of them. */
  lemma SkipExactly(d: i64, threshold: u32)
    ensures Below(ToNs(d), threshold) <==> Skips(d, threshold)
  {
    var k, _ := WrapQuotients(d * 1000);
    var r, delta := WrapU(d * 1000), ToNs(d);
    assert delta == if r < TWO63 then r else r - TWO64;
    if threshold > 0 {
      NearZero(1000 * d, r, k, threshold);
      LeastMagnitude(delta);
    }
  }

  lemma NearZero(x: int, r: u64, k: int, threshold: nat)
    requires x == r + k * TWO64 && 0 < threshold <= TWO32
    ensures (x + threshold - 1) % TWO64 <= 2 * threshold - 2 <==> r < threshold || r > TWO64 - threshold
  {
    var y := r + threshold - 1;
    if y < TWO64 {
      WrapCongruent(x + threshold - 1, y, k);
    } else {
      WrapCongruent(x + threshold - 1, y - TWO64, k + 1);
    }
  }

  /** Both ways of being wrongly skipped occur, at any threshold: apart by 2^61 microseconds
      the product wraps to nothing, and apart by 2^60 to the number that has no negation. */
  lemma WronglySkipped(threshold: u32)
    requires threshold > 0
    ensures Below(ToNs(0x2000_0000_0000_0000), threshold)
    ensures Below(ToNs(0x1000_0000_0000_0000), threshold)
  {
  }

  // ---------------------------------------------------------------- the cycle, card by card

  lemma OneCardSynced(s: ModuleState, i: nat, v: u64, threshold: u32, at: Access)
    requires i < |s.cards|
    ensures SyncOne(s, i, v, threshold, at).cards == s.cards[i := SyncCard(s.cards[i], v, threshold, at)]
  {
    hide SyncCard, Below, DeltaNs;
  }

  lemma {:induction false} SecondariesAt(s: ModuleState, p: nat, v: u64, threshold: u32, when: nat -> Access, n: nat)
    requires n <= |s.cards|
    ensures var r := SyncSecondaries(s, p, v, threshold, when, n);
            forall i | 0 <= i < |s.cards| ::
              r.cards[i] == if i < n && i != p then SyncCard(s.cards[i], v, threshold, when(i)) else s.cards[i]
  {
    hide SyncOne, SyncCard;
    if n > 0 {
      SecondariesAt(s, p, v, threshold, when, n - 1);
      if n - 1 != p {
        OneCardSynced(SyncSecondaries(s, p, v, threshold, when, n - 1), n - 1, v, threshold, when(n - 1));
      }
    }
  }

  /** Which cycles run, and what they do: the card that leads is read first, so a cycle whose leader
      has no VIF changes nothing but the failure count, and every other leaves the leader as it is
      and corrects each of the other cards against it. */
  lemma LeaderDecides(s: ModuleState, name: string, threshold: u32, start: nat, when: nat -> Access, p: nat)
    requires Leads(s.cards, name, p)
    ensures var r := SyncCycle(s, name, threshold, start, when);
            if s.cards[p].vif.None? then r == s.(failures := s.failures + 1)
            else
              && r.cycles == s.cycles + 1 && r.failures == s.failures
              && |r.cards| == |s.cards| && r.cards[p] == s.cards[p]
              && forall i | 0 <= i < |s.cards| && i != p ::
                   r.cards[i] == SyncCard(s.cards[i], s.cards[p].Tsf(start), threshold, when(i))
  {
    hide SyncSecondaries, SyncCard, Primary, Leads;
    PrimaryLeads(s.cards, name);
    var v := s.cards[p].Tsf(start);
    SecondariesAt(s, p, v, threshold, when, |s.cards|);
    CountsRight(s, p, v, threshold, when, |s.cards|);
  }

  /** Without a leader, on an empty list or when no card bears the name, a cycle only fails. */
  lemma NobodyLeads(s: ModuleState, name: string, threshold: u32, start: nat, when: nat -> Access)
    requires forall p: nat :: !Leads(s.cards, name, p)
    ensures s.cards == [] || (name != "" && forall i | 0 <= i < |s.cards| :: s.cards[i].phyName != name)
    ensures SyncCycle(s, name, threshold, start, when) == s.(failures := s.failures + 1)
  {
    hide Leads;
    PrimaryLeads(s.cards, name);
  }

  predicate Counted(c: CardState, i: nat, p: nat) {
    i != p && c.vif.Some?
  }

  predicate IsWritten(c: CardState, i: nat, p: nat, v: u64, threshold: u32, at: Access) {
    Counted(c, i, p) && !Below(DeltaNs(v, c.Tsf(at.read)), threshold)
  }

  /** The secondaries with a VIF, among the first `n` cards. */
  function UpSecondaries(cards: seq<CardState>, p: nat, n: nat): set<nat>
    requires n <= |cards|
  {
    set i: nat | i < n && Counted(cards[i], i, p)
  }

  /** Those of them whose clock is written. */
  function Written(cards: seq<CardState>, p: nat, v: u64, threshold: u32, when: nat -> Access, n: nat): set<nat>
    requires n <= |cards|
  {
    set i: nat | i < n && IsWritten(cards[i], i, p, v, threshold, when(i))
  }

  lemma {:induction false} CountsRight(s: ModuleState, p: nat, v: u64, threshold: u32, when: nat -> Access, n: nat)
    requires n <= |s.cards|
    ensures var r := SyncSecondaries(s, p, v, threshold, when, n);
            && r.applied == s.applied + |Written(s.cards, p, v, threshold, when, n)|
            && r.applied + r.skipped == s.applied + s.skipped + |UpSecondaries(s.cards, p, n)|
            && r.cycles == s.cycles && r.failures == s.failures
  {
    hide SyncOne, SyncCard, UpSecondaries, Written, Counted, IsWritten;
    NoneYet(s.cards, p, v, threshold, when);
    if n > 0 {
      OneCounts(SyncSecondaries(s, p, v, threshold, when, n - 1), n - 1, p, v, threshold, when(n - 1));
      CountsRight(s, p, v, threshold, when, n - 1);
      NotYet(s, p, v, threshold, when, n - 1);
      OneMoreUp(s.cards, p, n);
      OneMoreWritten(s.cards, p, v, threshold, when, n);
    }
  }

  lemma NoneYet(cards: seq<CardState>, p: nat, v: u64, threshold: u32, when: nat -> Access)
    ensures UpSecondaries(cards, p, 0) == {} && Written(cards, p, v, threshold, when, 0) == {}
  {
  }

  lemma NotYet(s: ModuleState, p: nat, v: u64, threshold: u32, when: nat -> Access, n: nat)
    requires n < |s.cards|
    ensures SyncSecondaries(s, p, v, threshold, when, n).cards[n] == s.cards[n]
  {
    hide SyncSecondaries, SyncCard;
    SecondariesAt(s, p, v, threshold, when, n);
  }

  lemma OneCounts(s: ModuleState, i: nat, p: nat, v: u64, threshold: u32, at: Access)
    requires i < |s.cards|
    ensures var r, c := if i == p then s else SyncOne(s, i, v, threshold, at), s.cards[i];
            && r.applied == s.applied + (if IsWritten(c, i, p, v, threshold, at) then 1 else 0)
            && r.applied + r.skipped == s.applied + s.skipped + (if Counted(c, i, p) then 1 else 0)
            && r.cycles == s.cycles && r.failures == s.failures
  {
    hide SyncCard, Below, DeltaNs;
  }

  lemma OneMoreUp(cards: seq<CardState>, p: nat, n: nat)
    requires 0 < n <= |cards|
    ensures |UpSecondaries(cards, p, n)|
         == |UpSecondaries(cards, p, n - 1)| + if Counted(cards[n - 1], n - 1, p) then 1 else 0
  {
    hide Counted;
    var up := UpSecondaries(cards, p, n - 1);
    assert UpSecondaries(cards, p, n) == if Counted(cards[n - 1], n - 1, p) then up + {n - 1} else up;
  }

  lemma OneMoreWritten(cards: seq<CardState>, p: nat, v: u64, threshold: u32, when: nat -> Access, n: nat)
    requires 0 < n <= |cards|
    ensures |Written(cards, p, v, threshold, when, n)|
         == |Written(cards, p, v, threshold, when, n - 1)|
            + if IsWritten(cards[n - 1], n - 1, p, v, threshold, when(n - 1)) then 1 else 0
  {
    hide IsWritten;
    var w := Written(cards, p, v, threshold, when, n - 1);
    assert Written(cards, p, v, threshold, when, n)
        == if IsWritten(cards[n - 1], n - 1, p, v, threshold, when(n - 1)) then w + {n - 1} else w;
  }

  // ---------------------------------------------------------------- how close they end up

  /** Every access of a cycle falls within `lag` of its start. */
  ghost predicate Within(when: nat -> Access, start: nat, lag: nat, n: nat) {
    forall i: nat | i < n :: Near(when(i), start, lag)
  }

  predicate Near(at: Access, start: nat, lag: nat) {
    start <= at.read <= start + lag && start <= at.write <= start + lag
  }

  /** How far behind the primary the cycle finds a card. */
  function Lead(v: u64, c: CardState, at: Access): i64 {
    WrapS(v - c.Tsf(at.read))
  }

  /** Where a cycle leaves a card, exactly: one that is written, behind by the time from the reading of
      the primary to that write; any other, where it was. */
  lemma SyncedOffset(c: CardState, p: CardState, start: nat, at: Access, threshold: u32)
    requires c.vif.Some? && c.writable
    ensures var v := p.Tsf(start);
            Offset(SyncCard(c, v, threshold, at), p)
            == if Below(DeltaNs(v, c.Tsf(at.read)), threshold) then Offset(c, p) else WrapS(start - at.write)
  {
    hide WrapS, WrapU, Below, DeltaNs;
    WrittenOffset(c, p, start, at);
  }

  lemma WrittenOffset(c: CardState, p: CardState, start: nat, at: Access)
    requires c.writable
    ensures Offset(c.SetTsf(at.write, p.Tsf(start)), p) == WrapS(start - at.write)
  {
    hide WrapS, WrapU;
    var v := p.Tsf(start);
    var j, _ := WrapQuotients(p.bias + start);
    var k, _ := WrapQuotients(v - at.write);
    WrapCongruent(WrapU(v - at.write) - p.bias, start - at.write, -j - k);
  }

  lemma WrittenBound(c: CardState, p: CardState, start: nat, at: Access, lag: nat)
    requires c.writable && Near(at, start, lag)
    ensures Abs(Offset(c.SetTsf(at.write, p.Tsf(start)), p)) <= lag
  {
    hide WrapS, WrapU, CardState.SetTsf, Offset;
    WrittenOffset(c, p, start, at);
    WrapShrinks(start - at.write);
  }

  lemma SkippedBound(c: CardState, p: CardState, start: nat, at: Access, lag: nat)
    requires Near(at, start, lag)
    ensures Abs(Offset(c, p)) <= Abs(Lead(p.Tsf(start), c, at)) + lag
    ensures Abs(Lead(p.Tsf(start), c, at)) <= Abs(Offset(c, p)) + lag
  {
    hide WrapS, WrapU;
    var d := Lead(p.Tsf(start), c, at);
    var j, _ := WrapQuotients(p.bias + start);
    var k, _ := WrapQuotients(c.bias + at.read);
    var _, l := WrapQuotients(p.Tsf(start) - c.Tsf(at.read));
    WrapCongruent(c.bias - p.bias, -d + (start - at.read), k - j - l);
    WrapTriangle(-(d as int), start - at.read);
    WrapNegation(d);
  }

  /** A cycle that takes at most `lag` microseconds, from any clock values: who is written ends
      within `lag` of the primary; who is skipped ends within the threshold and `lag`, provided
      the nanosecond product did not overflow, and is lost if it did; the primary is not touched;
      and every secondary with a VIF is counted once, as applied or as skipped. */
  lemma BoundedCycle(s: ModuleState, name: string, threshold: u32, start: nat, when: nat -> Access, lag: nat)
    requires Within(when, start, lag, |s.cards|)
    requires Primary(s.cards, name).Some? && s.cards[Primary(s.cards, name).value].vif.Some?
    ensures var p := Primary(s.cards, name).value;
            var r, v := SyncCycle(s, name, threshold, start, when), s.cards[p].Tsf(start);
            && r.cards[p] == s.cards[p]
            && r.applied + r.skipped == s.applied + s.skipped + |UpSecondaries(s.cards, p, |s.cards|)|
            && r.cycles == s.cycles + 1 && r.failures == s.failures
            && (forall i | i in UpSecondaries(s.cards, p, |s.cards|) && s.cards[i].writable ::
                  var d := Lead(v, s.cards[i], when(i));
                  var off := Abs(Offset(r.cards[i], s.cards[p]));
                  if !Below(ToNs(d), threshold) then off <= lag
                  else if FitsI64(1000 * d) then 1000 * off < threshold + 1000 * lag
                  else 1000 * (off + lag) >= TWO63)
  {
    var p := Primary(s.cards, name).value;
    var v := s.cards[p].Tsf(start);
    SecondariesAt(s, p, v, threshold, when, |s.cards|);
    CountsRight(s, p, v, threshold, when, |s.cards|);
    var r := SyncCycle(s, name, threshold, start, when);
    forall i | i in UpSecondaries(s.cards, p, |s.cards|) && s.cards[i].writable
      ensures var d := Lead(v, s.cards[i], when(i));
              var off := Abs(Offset(r.cards[i], s.cards[p]));
              if !Below(ToNs(d), threshold) then off <= lag
              else if FitsI64(1000 * d) then 1000 * off < threshold + 1000 * lag
              else 1000 * (off + lag) >= TWO63
    {
      OneCardBound(s.cards[i], s.cards[p], start, when(i), threshold, lag);
    }
  }

  lemma OneCardBound(c: CardState, p: CardState, start: nat, at: Access, threshold: u32, lag: nat)
    requires c.vif.Some? && c.writable && Near(at, start, lag)
    ensures var v := p.Tsf(start);
            var d := Lead(v, c, at);
            var off := Abs(Offset(SyncCard(c, v, threshold, at), p));
            if !Below(ToNs(d), threshold) then off <= lag
            else if FitsI64(1000 * d) then 1000 * off < threshold + 1000 * lag
            else 1000 * (off + lag) >= TWO63
  {
    hide WrapS, WrapU, Below, ToNs;
    var v := p.Tsf(start);
    var d: int := Lead(v, c, at);
    WrittenBound(c, p, start, at, lag);
    SkippedBound(c, p, start, at, lag);
    if FitsI64(1000 * d) {
      SkipRightWhenFits(d, threshold);
    }
  }

  /** On frozen clocks, exactly when one cycle synchronises a card to within the threshold:
      unless the product overflows and still lands where the skip takes it. */
  lemma SynchronisedExactly(c: CardState, p: CardState, now: nat, threshold: u32)
    requires c.vif.Some? && c.writable
    ensures var d := Lead(p.Tsf(now), c, Access(now, now));
            var r := SyncCard(c, p.Tsf(now), threshold, Access(now, now));
            (if threshold == 0 then Offset(r, p) == 0 else 1000 * Abs(Offset(r, p)) < threshold)
            <==>
            FitsI64(1000 * d) || !Skips(d, threshold)
  {
    hide WrapS, WrapU, SyncCard, Below, ToNs;
    var d := Lead(p.Tsf(now), c, Access(now, now));
    OneCardBound(c, p, now, Access(now, now), threshold, 0);
    SkipExactly(d, threshold);
  }

  /** What a cycle records about a secondary: a missing VIF counts as an error and nothing else
      changes; otherwise the cycle counts, and the offset kept is the card's true lag behind the
      primary, in nanoseconds, whenever that fits. Neither changes anything but the clock. */
  lemma CardAccounts(s: ModuleState, name: string, threshold: u32, start: nat, when: nat -> Access, i: nat)
    requires Primary(s.cards, name).Some? && s.cards[Primary(s.cards, name).value].vif.Some?
    requires i < |s.cards| && i != Primary(s.cards, name).value
    ensures var v := s.cards[Primary(s.cards, name).value].Tsf(start);
            var c, r := s.cards[i], SyncCycle(s, name, threshold, start, when).cards[i];
            var d := Lead(v, c, when(i));
            if c.vif.None? then r == c.(errors := c.errors + 1)
            else
              && r == c.(bias := r.bias, lastOffsetNs := r.lastOffsetNs, syncs := c.syncs + 1)
              && (FitsI64(1000 * d) ==> r.lastOffsetNs == 1000 * d)
              && (!c.writable ==> r.bias == c.bias)
  {
    hide SyncSecondaries, WrapU, Below;
    var p := Primary(s.cards, name).value;
    SecondariesAt(s, p, s.cards[p].Tsf(start), threshold, when, |s.cards|);
    var d: int := Lead(s.cards[p].Tsf(start), s.cards[i], when(i));
    WrapCongruent(d * 1000, d * 1000, 0);
  }
}
