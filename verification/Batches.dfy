/** What a batch written to the character device amounts to, for any list of entries. */
module Batches {
  import opened Machine
  import opened Cards
  import opened Chardev

  // ---------------------------------------------------------------- splitting and reordering

  /** A batch may be cut in two anywhere. */
  lemma {:induction false} SplitAnywhere(s: ModuleState, a: seq<Entry>, b: seq<Entry>, threshold: u32)
    ensures WriteEntries(s, a + b, threshold) == WriteEntries(WriteEntries(s, a, threshold), b, threshold)
    decreases |b|
  {
    hide EntryEffect;
    if b == [] {
      assert a + b == a;
    } else {
      var init, last := b[..|b| - 1], b[|b| - 1];
      assert (a + b)[..|a + b| - 1] == a + init && (a + b)[|a + b| - 1] == last;
      SplitAnywhere(s, a, init, threshold);
    }
  }

  /** Neighbouring entries for different cards may change places, clocks, counters and all. */
  lemma DistinctCardsCommute(s: ModuleState, a: seq<Entry>, d: Entry, e: Entry, b: seq<Entry>,
                             threshold: u32)
    requires d.adj.cardIndex != e.adj.cardIndex
    ensures WriteEntries(s, a + [d, e] + b, threshold) == WriteEntries(s, a + [e, d] + b, threshold)
  {
    hide EntryEffect;
    var t := WriteEntries(s, a, threshold);
    SplitAnywhere(s, a + [d, e], b, threshold);
    SplitAnywhere(s, a + [e, d], b, threshold);
    Pair(s, a, d, e, threshold);
    Pair(s, a, e, d, threshold);
    SwapOne(t, d, e, threshold);
  }

  lemma Pair(s: ModuleState, a: seq<Entry>, d: Entry, e: Entry, threshold: u32)
    ensures WriteEntries(s, a + [d, e], threshold)
         == EntryEffect(EntryEffect(WriteEntries(s, a, threshold), d, threshold), e, threshold)
  {
    hide EntryEffect;
    assert (a + [d, e])[..|a| + 1] == a + [d];
    assert (a + [d])[..|a|] == a;
  }

  lemma SwapOne(s: ModuleState, d: Entry, e: Entry, threshold: u32)
    requires d.adj.cardIndex != e.adj.cardIndex
    ensures EntryEffect(EntryEffect(s, d, threshold), e, threshold)
         == EntryEffect(EntryEffect(s, e, threshold), d, threshold)
  {
    hide AdjustCard, Below;
    var x, y := EntryEffect(EntryEffect(s, d, threshold), e, threshold),
                EntryEffect(EntryEffect(s, e, threshold), d, threshold);
    assert x.cards == y.cards;
  }

  // ---------------------------------------------------------------- one card's share

  function EntriesFor(es: seq<Entry>, i: nat): seq<Entry> {
    if es == [] then [] else
      var last := es[|es| - 1];
      EntriesFor(es[..|es| - 1], i) + if last.adj.cardIndex == i then [last] else []
  }

  /** `adjtime` folded over a list of requests to one card. */
  function AdjustAll(c: CardState, es: seq<Entry>, threshold: u32): CardState {
    if es == [] then c else
      var last := es[|es| - 1];
      AdjustCard(AdjustAll(c, es[..|es| - 1], threshold), last.adj.deltaNs, threshold, last.at)
  }

  lemma NoEntries(i: nat)
    ensures EntriesFor([], i) == []
  {
  }

  lemma {:induction false} LastOwnEntry(es: seq<Entry>, i: nat)
    requires es != []
    ensures var init, last := EntriesFor(es[..|es| - 1], i), es[|es| - 1];
            EntriesFor(es, i) == if last.adj.cardIndex == i then init + [last] else init
  {
    var init := EntriesFor(es[..|es| - 1], i);
    assert init + [] == init;
  }

  lemma OneEntry(s: ModuleState, e: Entry, threshold: u32, i: nat)
    requires i < |s.cards|
    ensures EntryEffect(s, e, threshold).cards[i]
         == if e.adj.cardIndex == i then AdjustCard(s.cards[i], e.adj.deltaNs, threshold, e.at) else s.cards[i]
  {
    hide AdjustCard, Below;
  }

  /** A batch does to each card what its own entries, in order, would do to it alone. */
  lemma {:induction false} BatchIsFold(s: ModuleState, es: seq<Entry>, threshold: u32, i: nat)
    requires i < |s.cards|
    ensures WriteEntries(s, es, threshold).cards[i] == AdjustAll(s.cards[i], EntriesFor(es, i), threshold)
  {
    hide AdjustCard, EntryEffect, EntriesFor;
    NoEntries(i);
    if es != [] {
      var init, last := es[..|es| - 1], es[|es| - 1];
      BatchIsFold(s, init, threshold, i);
      OneEntry(WriteEntries(s, init, threshold), last, threshold, i);
      LastOwnEntry(es, i);
      var own := EntriesFor(init, i);
      assert (own + [last])[..|own|] == own;
    }
  }

  // ---------------------------------------------------------------- what truncation loses

  /** The whole microseconds one correction contributes. */
  function Gain(delta: i64, threshold: u32): int {
    if Below(delta, threshold) then 0 else TruncDiv(delta, 1000)
  }

  function Worst(threshold: u32): nat {
    if threshold > 1000 then threshold else 1000
  }

  /** One correction comes within the worst case of what was asked for, exactly unless a
      threshold meets the one number that has no negation: it is then ignored altogether. */
  lemma LossExactly(delta: i64, threshold: u32)
    ensures Abs(delta - 1000 * Gain(delta, threshold)) < Worst(threshold)
            <==> !(threshold > 0 && delta == I64_MIN)
  {
    hide TruncDiv, Magnitude;
    TruncBounds(delta);
    LeastMagnitude(delta);
  }

  function TotalAsked(es: seq<Entry>): int {
    if es == [] then 0 else TotalAsked(es[..|es| - 1]) + es[|es| - 1].adj.deltaNs as int
  }

  function TotalGain(es: seq<Entry>, threshold: u32): int {
    if es == [] then 0 else TotalGain(es[..|es| - 1], threshold) + Gain(es[|es| - 1].adj.deltaNs, threshold)
  }

  /** The ticks that fall between the reads and the writes of the corrections applied. */
  function TotalLag(es: seq<Entry>, threshold: u32): int {
    if es == [] then 0 else
      var last := es[|es| - 1];
      TotalLag(es[..|es| - 1], threshold)
      + if Below(last.adj.deltaNs, threshold) then 0 else last.at.write - last.at.read
  }

  lemma {:induction false} ClockMoved(c: CardState, es: seq<Entry>, threshold: u32)
    requires c.vif.Some? && c.writable
    ensures var r := AdjustAll(c, es, threshold);
            && r == c.(bias := r.bias)
            && r.bias == WrapU(c.bias + TotalGain(es, threshold) - TotalLag(es, threshold))
  {
    hide WrapU, Below, TruncDiv;
    if es == [] {
      WrapCongruent(c.bias, c.bias, 0);
    } else {
      var init, last := es[..|es| - 1], es[|es| - 1];
      ClockMoved(c, init, threshold);
      OneStep(AdjustAll(c, init, threshold), last.adj.deltaNs, threshold, last.at,
              c.bias + TotalGain(init, threshold) - TotalLag(init, threshold));
    }
  }

  lemma OneStep(c: CardState, delta: i64, threshold: u32, at: Access, reached: int)
    requires c.vif.Some? && c.writable && c.bias == WrapU(reached)
    ensures var r := AdjustCard(c, delta, threshold, at);
            && r == c.(bias := r.bias)
            && r.bias == WrapU(reached + Gain(delta, threshold)
                               - if Below(delta, threshold) then 0 else at.write - at.read)
  {
    hide WrapU, Below, TruncDiv;
    if !Below(delta, threshold) {
      var q := TruncDiv(delta, 1000);
      var j, _ := WrapQuotients(reached);
      var k, _ := WrapQuotients(c.bias + at.read);
      var l, _ := WrapQuotients(c.Tsf(at.read) + q);
      WrapCongruent(WrapU(c.Tsf(at.read) + q) - at.write, reached + q - (at.write - at.read), -j - k - l);
    }
  }

  /** However many corrections a card is sent, it ends within the worst case, once for each, of
      the total it was asked to move. */
  lemma {:induction false} TotalLoss(es: seq<Entry>, threshold: u32)
    requires threshold > 0 ==> forall i | 0 <= i < |es| :: es[i].adj.deltaNs != I64_MIN
    ensures es != [] ==>
      Abs(TotalAsked(es) - 1000 * TotalGain(es, threshold)) < |es| * Worst(threshold)
    ensures es == [] ==> TotalAsked(es) == 0 == TotalGain(es, threshold)
  {
    hide Gain, Worst;
    if es != [] {
      var init, last := es[..|es| - 1], es[|es| - 1];
      TotalLoss(init, threshold);
      LossExactly(last.adj.deltaNs, threshold);
      OneMoreWorst(|init|, Worst(threshold));
    }
  }

  lemma OneMoreWorst(n: nat, worst: nat)
    ensures (n + 1) * worst == n * worst + worst
  {
  }

  /** The same for a card inside a batch for many: where its clock ends, and how far that is
      from what its own entries asked. */
  lemma BatchLoss(s: ModuleState, es: seq<Entry>, threshold: u32, i: nat)
    requires i < |s.cards| && s.cards[i].vif.Some? && s.cards[i].writable
    requires threshold > 0 ==>
               forall k | 0 <= k < |es| && es[k].adj.cardIndex == i :: es[k].adj.deltaNs != I64_MIN
    ensures var own := EntriesFor(es, i);
            var moved := TotalGain(own, threshold);
            && WriteEntries(s, es, threshold).cards[i].bias
               == WrapU(s.cards[i].bias + moved - TotalLag(own, threshold))
            && (own != [] ==> Abs(TotalAsked(own) - 1000 * moved) < |own| * Worst(threshold))
            && (own == [] ==> moved == 0)
  {
    hide WrapU, WriteEntries, EntriesFor, AdjustAll, Worst, TotalLag, TotalAsked, TotalGain;
    var own := EntriesFor(es, i);
    BatchIsFold(s, es, threshold, i);
    ClockMoved(s.cards[i], own, threshold);
    OwnEntries(es, i);
    TotalLoss(own, threshold);
  }

  lemma {:induction false} OwnEntries(es: seq<Entry>, i: nat)
    ensures forall e | e in EntriesFor(es, i) :: e in es && e.adj.cardIndex == i
  {
    if es != [] {
      OwnEntries(es[..|es| - 1], i);
    }
  }

  // ---------------------------------------------------------------- the accounts

  /** What `adjtime` counts: a request below the threshold as skipped, one that steps a clock as
      applied, and one for a card without a VIF not at all. */
  lemma AdjTimeAccounts(s: ModuleState, i: nat, delta: i64, threshold: u32, at: Access)
    requires i < |s.cards|
    ensures var r, small := AdjTimeEffect(s, i, delta, threshold, at), threshold > 0 && Magnitude(delta) < threshold;
            && r.skipped == s.skipped + (if small then 1 else 0)
            && r.applied == s.applied + (if !small && s.cards[i].vif.Some? then 1 else 0)
            && r.cycles == s.cycles && r.failures == s.failures
            && |r.cards| == |s.cards| && (forall j | 0 <= j < |s.cards| :: r.cards[j].vif == s.cards[j].vif)
  {
    hide Magnitude, TruncDiv, WrapU;
  }

  predicate Steps(e: Entry, cards: seq<CardState>, threshold: u32) {
    !Below(e.adj.deltaNs, threshold) && e.adj.cardIndex < |cards| && cards[e.adj.cardIndex].vif.Some?
  }

  /** The entries of a batch that are below the threshold, and those that step a card's clock. */
  function SmallEntries(es: seq<Entry>, threshold: u32): set<nat> {
    set k: nat | k < |es| && Below(es[k].adj.deltaNs, threshold)
  }

  function SteppingEntries(es: seq<Entry>, cards: seq<CardState>, threshold: u32): set<nat> {
    set k: nat | k < |es| && Steps(es[k], cards, threshold)
  }

  /** What a batch counts: each entry below the threshold as skipped, whatever its index, each one
      that steps a card as applied, and no other. */
  lemma {:induction false} BatchAccounts(s: ModuleState, es: seq<Entry>, threshold: u32)
    ensures var r := WriteEntries(s, es, threshold);
            && r.skipped == s.skipped + |SmallEntries(es, threshold)|
            && r.applied == s.applied + |SteppingEntries(es, s.cards, threshold)|
            && r.cycles == s.cycles && r.failures == s.failures
            && |r.cards| == |s.cards| && (forall j | 0 <= j < |s.cards| :: r.cards[j].vif == s.cards[j].vif)
  {
    hide EntryEffect, SmallEntries, SteppingEntries, Below, Steps;
    NothingCounted(s.cards, threshold);
    if es != [] {
      var init, last := es[..|es| - 1], es[|es| - 1];
      BatchAccounts(s, init, threshold);
      EntryAccounts(WriteEntries(s, init, threshold), s.cards, last, threshold);
      OneMoreSmall(es, threshold);
      OneMoreStepping(es, s.cards, threshold);
    }
  }

  lemma NothingCounted(cards: seq<CardState>, threshold: u32)
    ensures SmallEntries([], threshold) == {} && SteppingEntries([], cards, threshold) == {}
  {
  }

  lemma EntryAccounts(s: ModuleState, was: seq<CardState>, e: Entry, threshold: u32)
    requires |was| == |s.cards| && forall j | 0 <= j < |was| :: s.cards[j].vif == was[j].vif
    ensures var r := EntryEffect(s, e, threshold);
            && r.skipped == s.skipped + (if Below(e.adj.deltaNs, threshold) then 1 else 0)
            && r.applied == s.applied + (if Steps(e, was, threshold) then 1 else 0)
            && r.cycles == s.cycles && r.failures == s.failures
            && |r.cards| == |s.cards| && (forall j | 0 <= j < |s.cards| :: r.cards[j].vif == s.cards[j].vif)
  {
    hide Magnitude, AdjTimeEffect;
    if e.adj.cardIndex < |s.cards| {
      AdjTimeAccounts(s, e.adj.cardIndex, e.adj.deltaNs, threshold, e.at);
    }
  }

  lemma OneMoreSmall(es: seq<Entry>, threshold: u32)
    requires es != []
    ensures var n := |es| - 1;
            |SmallEntries(es, threshold)|
            == |SmallEntries(es[..n], threshold)| + if Below(es[n].adj.deltaNs, threshold) then 1 else 0
  {
    hide Below;
    var n := |es| - 1;
    var before := SmallEntries(es[..n], threshold);
    assert SmallEntries(es, threshold) == if Below(es[n].adj.deltaNs, threshold) then before + {n} else before;
  }

  lemma OneMoreStepping(es: seq<Entry>, cards: seq<CardState>, threshold: u32)
    requires es != []
    ensures var n := |es| - 1;
            |SteppingEntries(es, cards, threshold)|
            == |SteppingEntries(es[..n], cards, threshold)| + if Steps(es[n], cards, threshold) then 1 else 0
  {
    hide Steps;
    var n := |es| - 1;
    var before := SteppingEntries(es[..n], cards, threshold);
    assert SteppingEntries(es, cards, threshold) == if Steps(es[n], cards, threshold) then before + {n} else before;
  }
}
