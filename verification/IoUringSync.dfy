/** Mode C, the userspace half (src/iouring_sync.rs). */
module IoUringSync {
  import opened Machine
  import opened Cards
  import opened Chardev
  import ModeB

  const MAX_CARDS: nat := 128

  datatype SyncStats = SyncStats(cardsRead: nat, applied: nat, skipped: nat, maxOffsetNs: i64)

  /** The snapshots that fit into the reader's buffer. */
  function Readable(cards: seq<CardState>, when: nat -> nat): (r: seq<Snapshot>)
  {
    var n := if |cards| < MAX_CARDS then |cards| else MAX_CARDS;
    Snapshots(cards, when, n)
  }

  function FindSnapshot(snaps: seq<Snapshot>, index: nat): (r: Option<Snapshot>)
    ensures r.Some? ==> r.value in snaps && r.value.cardIndex == index
    ensures r.None? ==> forall x | x in snaps :: x.cardIndex != index
  {
    if snaps == [] then None
    else if snaps[0].cardIndex == index then Some(snaps[0])
    else FindSnapshot(snaps[1..], index)
  }

  /** The subtraction wraps, as it does in a release build. */
  function OffsetNs(primaryNs: i64, snap: Snapshot): i64 {
    WrapS(primaryNs - snap.tsfNs)
  }

  predicate Asks(snap: Snapshot, primary: nat, primaryNs: i64, threshold: i64) {
    snap.cardIndex != primary && Magnitude(OffsetNs(primaryNs, snap)) > threshold
  }

  /** The adjustments asked of the secondaries among `snaps`. */
  function Adjustments(snaps: seq<Snapshot>, primary: nat, primaryNs: i64, threshold: i64): (r: seq<Adjustment>)
    ensures |r| <= |snaps|
  {
    if snaps == [] then [] else
      var last := snaps[|snaps| - 1];
      Adjustments(snaps[..|snaps| - 1], primary, primaryNs, threshold)
      + if Asks(last, primary, primaryNs, threshold)
        then [Adjustment(last.cardIndex, OffsetNs(primaryNs, last))] else []
  }

  function Stats(snaps: seq<Snapshot>, primary: nat, primaryNs: i64, threshold: i64): (r: SyncStats) {
    if snaps == [] then SyncStats(0, 0, 0, 0) else
      var last := snaps[|snaps| - 1];
      var before := Stats(snaps[..|snaps| - 1], primary, primaryNs, threshold);
      if last.cardIndex == primary then before.(cardsRead := before.cardsRead + 1) else
        var size := Magnitude(OffsetNs(primaryNs, last));
        var asks := size > threshold;
        SyncStats(before.cardsRead + 1,
                  before.applied + (if asks then 1 else 0), before.skipped + (if asks then 0 else 1),
                  if size > before.maxOffsetNs then size else before.maxOffsetNs)
  }

  /** What a cycle asks for, and what it leaves in the kernel. */
  function Asked(cards: seq<CardState>, primary: nat, threshold: i64, readAt: nat -> nat): seq<Adjustment> {
    var snaps := Readable(cards, readAt);
    match FindSnapshot(snaps, primary)
    case None => []
    case Some(x) => Adjustments(snaps, primary, x.tsfNs, threshold)
  }

  function ModeCCycle(s: ModuleState, primary: nat, threshold: i64, kernelThreshold: u32,
                      readAt: nat -> nat, writeAt: nat -> Access): (r: ModuleState)
    ensures |r.cards| == |s.cards|
  {
    WriteEntries(s, Stamp(Asked(s.cards, primary, threshold, readAt), writeAt), kernelThreshold)
  }

  function CycleStats(cards: seq<CardState>, primary: nat, threshold: i64, readAt: nat -> nat): SyncStats {
    var snaps := Readable(cards, readAt);
    match FindSnapshot(snaps, primary)
    case None => SyncStats(|snaps|, 0, 0, 0)
    case Some(x) => Stats(snaps, primary, x.tsfNs, threshold)
  }

  class IoUringSyncer {
    const primaryIndex: nat
    const thresholdNs: i64

    constructor (primaryIndex: nat, thresholdNs: i64)
      ensures this.primaryIndex == primaryIndex && this.thresholdNs == thresholdNs
    {
      this.primaryIndex, this.thresholdNs := primaryIndex, thresholdNs;
    }

    method ReadSnapshots(m: TsfPtp, readAt: nat -> nat)
      returns (snapshots: seq<Snapshot>)
      ensures snapshots == Readable(m.View().cards, readAt)
    {
      hide SnapshotOf, States;
      ghost var locks;
      var bytesRead, filled;
      bytesRead, filled, locks := Read(m, SNAPSHOT_SIZE * MAX_CARDS, readAt);
      var count := bytesRead / SNAPSHOT_SIZE;
      snapshots := [];
      for i := 0 to count
        invariant |snapshots| == i
        invariant forall j | 0 <= j < i :: snapshots[j] == filled[j]
      {
        snapshots := snapshots + [filled[i]];
      }
    }

    /** One cycle: read every card, ask for corrections, write them back in one go. */
    method SyncOnce(m: TsfPtp, readAt: nat -> nat, writeAt: nat -> Access) returns (stats: SyncStats)
      requires m.Valid()
      modifies m`applied, m`skipped, m.cards
      ensures m.View() == ModeCCycle(old(m.View()), primaryIndex, thresholdNs, m.threshold, readAt, writeAt)
      ensures stats == CycleStats(old(m.View()).cards, primaryIndex, thresholdNs, readAt)
    {
      hide States, Readable, Adjustments, Stats, WriteEntries, BatchLocks, WriteLocks, SoundEntries, TakesListHead;
      WriteNothing(m.View(), m.threshold);
      assert Stamp([], writeAt) == [];
      var snapshots := ReadSnapshots(m, readAt);
      stats := SyncStats(|snapshots|, 0, 0, 0);
      if snapshots == [] {
        return;
      }
      var found := FindSnapshot(snapshots, primaryIndex);
      if found.None? {
        return;
      }
      var adjustments;
      adjustments, stats := Compute(snapshots, found.value.tsfNs);
      AdjustmentsInRange(m.View().cards, readAt, primaryIndex, found.value.tsfNs, thresholdNs);
      if adjustments != [] {
        ghost var locks;
        var result;
        InRangeIsSound(adjustments, |m.cards|, m.threshold);
        result, locks := Write(m, ADJUSTMENT_SIZE * |adjustments|, adjustments, writeAt);
      }
    }

    method Compute(snapshots: seq<Snapshot>, primaryNs: i64)
      returns (adjustments: seq<Adjustment>, stats: SyncStats)
      ensures adjustments == Adjustments(snapshots, primaryIndex, primaryNs, thresholdNs)
      ensures stats == Stats(snapshots, primaryIndex, primaryNs, thresholdNs)
    {
      hide Magnitude, WrapS;
      adjustments := [];
      stats := SyncStats(|snapshots|, 0, 0, 0);
      for i := 0 to |snapshots|
        invariant adjustments == Adjustments(snapshots[..i], primaryIndex, primaryNs, thresholdNs)
        invariant stats == Stats(snapshots[..i], primaryIndex, primaryNs, thresholdNs).(cardsRead := |snapshots|)
      {
        assert snapshots[..i + 1][..i] == snapshots[..i];
        var snap := snapshots[i];
        if snap.cardIndex == primaryIndex {
          continue;
        }
        var delta := OffsetNs(primaryNs, snap);
        var absDelta := Magnitude(delta);
        if absDelta > stats.maxOffsetNs {
          stats := stats.(maxOffsetNs := absDelta);
        }
        if absDelta > thresholdNs {
          adjustments := adjustments + [Adjustment(snap.cardIndex, delta)];
          stats := stats.(applied := stats.applied + 1);
        } else {
          stats := stats.(skipped := stats.skipped + 1);
        }
      }
      assert snapshots[..|snapshots|] == snapshots;
      EveryCardRead(snapshots, primaryIndex, primaryNs, thresholdNs);
    }
  }

  /** The index a primary's name stands for; None for an error. It is the card Mode B would use
      for that name, when Mode C can read that far; the empty name, Mode B's first card, stands
      for nothing. */
  method FindPrimaryIndex(m: TsfPtp, name: string, readAt: nat -> nat) returns (r: Option<nat>)
    ensures var cards, p := m.View().cards, ModeB.Primary(m.View().cards, name);
            && (name != "" ==> r == if p.Some? && p.value < MAX_CARDS then p else None)
            && (name == "" && (forall i | 0 <= i < |cards| :: cards[i].phyName != "") ==> r == None)
  {
    hide States, Snapshots, Readable, ModeB.Primary;
    ghost var locks;
    var bytesRead, filled;
    bytesRead, filled, locks := Read(m, SNAPSHOT_SIZE * MAX_CARDS, readAt);
    var count := bytesRead / SNAPSHOT_SIZE;
    assert count == if |m.cards| < MAX_CARDS then |m.cards| else MAX_CARDS;
    WholeRecords(m.View().cards, readAt);
    var found := FirstWithName(filled[..count], name);
    NamedPrimary(m.View().cards, readAt, name, found);
    r := if found.None? then None else Some(filled[found.value].cardIndex);
  }

  lemma WholeRecords(cards: seq<CardState>, readAt: nat -> nat)
    ensures var n := if |cards| < MAX_CARDS then |cards| else MAX_CARDS;
            Snapshots(cards, readAt, |cards|)[..n] == Readable(cards, readAt)
  {
    hide SnapshotOf;
  }

  lemma NamedPrimary(cards: seq<CardState>, readAt: nat -> nat, name: string, found: Option<nat>)
    requires var snaps := Readable(cards, readAt);
             && (found.Some? ==> found.value < |snaps| && snaps[found.value].phyName == name)
             && forall i | 0 <= i < (if found.Some? then found.value else |snaps|) :: snaps[i].phyName != name
    ensures var p := ModeB.Primary(cards, name);
            && (found.Some? ==> Readable(cards, readAt)[found.value].cardIndex == found.value)
            && (name != "" ==> found == if p.Some? && p.value < MAX_CARDS then p else None)
            && (name == "" && (forall i | 0 <= i < |cards| :: cards[i].phyName != "") ==> found == None)
  {
    hide ModeB.FirstNamed, SnapshotOf;
    var snaps := Readable(cards, readAt);
    forall i | 0 <= i < |snaps| ensures snaps[i].cardIndex == i && snaps[i].phyName == cards[i].phyName {
      NameAndIndex(cards[i], i, readAt(i));
    }
  }

  lemma NameAndIndex(c: CardState, i: nat, now: nat)
    ensures SnapshotOf(c, i, now).cardIndex == i && SnapshotOf(c, i, now).phyName == c.phyName
  {
  }

  method FirstWithName(snaps: seq<Snapshot>, name: string) returns (r: Option<nat>)
    ensures r.Some? ==> r.value < |snaps| && snaps[r.value].phyName == name
    ensures forall i | 0 <= i < (if r.Some? then r.value else |snaps|) :: snaps[i].phyName != name
  {
    for i := 0 to |snaps|
      invariant forall j | 0 <= j < i :: snaps[j].phyName != name
    {
      if snaps[i].phyName == name {
        return Some(i);
      }
    }
    return None;
  }

  /** What the statistics of a cycle mean: one decision for each secondary read, as many
      applied as adjustments sent, and the largest magnitude seen, which the number without a
      negation does not raise. */
  lemma {:induction false} StatsRight(snaps: seq<Snapshot>, primary: nat, primaryNs: i64, threshold: i64)
    ensures var r := Stats(snaps, primary, primaryNs, threshold);
            && r.applied == |Adjustments(snaps, primary, primaryNs, threshold)|
            && r.applied + r.skipped == |snaps| - Occurrences(snaps, primary)
            && r.maxOffsetNs >= 0
            && (forall x | x in snaps && x.cardIndex != primary :: Magnitude(OffsetNs(primaryNs, x)) <= r.maxOffsetNs)
            && (r.maxOffsetNs > 0 ==> exists x :: x in snaps && x.cardIndex != primary
                                                  && Magnitude(OffsetNs(primaryNs, x)) == r.maxOffsetNs)
  {
    hide Magnitude, OffsetNs;
    if snaps != [] {
      var init, last := snaps[..|snaps| - 1], snaps[|snaps| - 1];
      StatsRight(init, primary, primaryNs, threshold);
      assert snaps == init + [last];
    }
  }

  function Occurrences(snaps: seq<Snapshot>, index: nat): nat {
    if snaps == [] then 0 else
      Occurrences(snaps[..|snaps| - 1], index) + if snaps[|snaps| - 1].cardIndex == index then 1 else 0
  }

  lemma {:induction false} EveryCardRead(snaps: seq<Snapshot>, primary: nat, primaryNs: i64, threshold: i64)
    ensures Stats(snaps, primary, primaryNs, threshold).cardsRead == |snaps|
  {
    if snaps != [] {
      EveryCardRead(snaps[..|snaps| - 1], primary, primaryNs, threshold);
    }
  }

  /** Every adjustment names a card the kernel has. */
  lemma AdjustmentsInRange(cards: seq<CardState>, readAt: nat -> nat, primary: nat,
                                        primaryNs: i64, threshold: i64)
    ensures forall a | a in Adjustments(Readable(cards, readAt), primary, primaryNs, threshold) :: a.cardIndex < |cards|
  {
    FromSnapshots(Readable(cards, readAt), primary, primaryNs, threshold);
  }

  lemma InRangeIsSound(adjs: seq<Adjustment>, cards: nat, threshold: u32)
    requires forall a | a in adjs :: a.cardIndex < cards
    ensures SoundEntries(adjs, cards, threshold) == |adjs| && adjs[..|adjs|] == adjs
  {
    hide Below;
  }

  lemma {:induction false} FromSnapshots(snaps: seq<Snapshot>, primary: nat, primaryNs: i64, threshold: i64)
    ensures forall a | a in Adjustments(snaps, primary, primaryNs, threshold) ::
              exists i :: 0 <= i < |snaps| && snaps[i].cardIndex == a.cardIndex
  {
    if snaps != [] {
      FromSnapshots(snaps[..|snaps| - 1], primary, primaryNs, threshold);
    }
  }

  // ---------------------------------------------------------------- the statistics of a cycle

  /** The primary is found by its index, if it is among the cards that can be read at all. */
  lemma FindsPrimary(cards: seq<CardState>, primary: nat, readAt: nat -> nat)
    ensures FindSnapshot(Readable(cards, readAt), primary)
         == if primary < |cards| && primary < MAX_CARDS
            then Some(SnapshotOf(cards[primary], primary, readAt(primary))) else None
  {
  }

  lemma IndexOf(c: CardState, i: nat, now: nat)
    ensures SnapshotOf(c, i, now).cardIndex == i
  {
  }

  lemma {:induction false} InOrderOnce(snaps: seq<Snapshot>, index: nat)
    requires forall i | 0 <= i < |snaps| :: snaps[i].cardIndex == i
    ensures Occurrences(snaps, index) == if index < |snaps| then 1 else 0
  {
    if snaps != [] {
      InOrderOnce(snaps[..|snaps| - 1], index);
    }
  }

  lemma InOrder(cards: seq<CardState>, readAt: nat -> nat, n: nat)
    requires n <= |cards|
    ensures forall i | 0 <= i < n :: Snapshots(cards, readAt, n)[i].cardIndex == i
  {
    hide SnapshotOf, Snapshots;
    forall i | 0 <= i < n ensures Snapshots(cards, readAt, n)[i].cardIndex == i {
      IndexOf(cards[i], i, readAt(i));
    }
  }

  /** The size of the difference a cycle finds for the card at index `i`. */
  function Difference(cards: seq<CardState>, primary: nat, i: nat, readAt: nat -> nat): i64
    requires primary < |cards| && i < |cards|
  {
    Magnitude(OffsetNs(SnapshotOf(cards[primary], primary, readAt(primary)).tsfNs, SnapshotOf(cards[i], i, readAt(i))))
  }

  /** The secondaries among the first `n` cards whose difference exceeds the threshold. */
  function Beyond(cards: seq<CardState>, primary: nat, threshold: i64, readAt: nat -> nat, n: nat): set<nat>
    requires primary < |cards| && n <= |cards|
  {
    set i: nat | i < n && i != primary && Difference(cards, primary, i, readAt) > threshold
  }

  lemma LastAsked(cards: seq<CardState>, n: nat, primary: nat, primaryNs: i64, threshold: i64, readAt: nat -> nat)
    requires 0 < n <= |cards|
    ensures var before := Adjustments(Snapshots(cards, readAt, n - 1), primary, primaryNs, threshold);
            var snap := SnapshotOf(cards[n - 1], n - 1, readAt(n - 1));
            Adjustments(Snapshots(cards, readAt, n), primary, primaryNs, threshold)
            == if Asks(snap, primary, primaryNs, threshold)
               then before + [Adjustment(n - 1, OffsetNs(primaryNs, snap))] else before
  {
    hide Asks, OffsetNs, SnapshotOf;
    IndexOf(cards[n - 1], n - 1, readAt(n - 1));
    var snaps := Snapshots(cards, readAt, n);
    assert snaps[..n - 1] == Snapshots(cards, readAt, n - 1);
    var before := Adjustments(snaps[..n - 1], primary, primaryNs, threshold);
    assert before + [] == before;
  }

  lemma AsksBeyond(cards: seq<CardState>, primary: nat, threshold: i64, readAt: nat -> nat, i: nat)
    requires primary < |cards| && i < |cards|
    ensures var primaryNs := SnapshotOf(cards[primary], primary, readAt(primary)).tsfNs;
            Asks(SnapshotOf(cards[i], i, readAt(i)), primary, primaryNs, threshold)
            <==> i != primary && Difference(cards, primary, i, readAt) > threshold
  {
    hide OffsetNs, Magnitude;
    IndexOf(cards[i], i, readAt(i));
  }

  lemma {:induction false} AskedCount(cards: seq<CardState>, primary: nat, threshold: i64, readAt: nat -> nat, n: nat)
    requires primary < |cards| && n <= |cards|
    ensures var primaryNs := SnapshotOf(cards[primary], primary, readAt(primary)).tsfNs;
            |Adjustments(Snapshots(cards, readAt, n), primary, primaryNs, threshold)|
            == |Beyond(cards, primary, threshold, readAt, n)|
  {
    hide SnapshotOf, OffsetNs, Snapshots, Beyond, Difference, Asks, Adjustments;
    NobodyBeyond(cards, primary, threshold, readAt);
    if n > 0 {
      AskedCount(cards, primary, threshold, readAt, n - 1);
      LastAsked(cards, n, primary, SnapshotOf(cards[primary], primary, readAt(primary)).tsfNs, threshold, readAt);
      AsksBeyond(cards, primary, threshold, readAt, n - 1);
      OneMoreBeyond(cards, primary, threshold, readAt, n);
    }
  }

  lemma NobodyBeyond(cards: seq<CardState>, primary: nat, threshold: i64, readAt: nat -> nat)
    requires primary < |cards|
    ensures Beyond(cards, primary, threshold, readAt, 0) == {}
  {
  }

  lemma OneMoreBeyond(cards: seq<CardState>, primary: nat, threshold: i64, readAt: nat -> nat, n: nat)
    requires primary < |cards| && 0 < n <= |cards|
    ensures |Beyond(cards, primary, threshold, readAt, n)|
         == |Beyond(cards, primary, threshold, readAt, n - 1)|
            + if n - 1 != primary && Difference(cards, primary, n - 1, readAt) > threshold then 1 else 0
  {
    hide Difference;
    var before := Beyond(cards, primary, threshold, readAt, n - 1);
    assert Beyond(cards, primary, threshold, readAt, n)
        == if n - 1 != primary && Difference(cards, primary, n - 1, readAt) > threshold then before + {n - 1}
           else before;
  }

  /** What a cycle reports. The cards read are the first 128. With the primary among them: as
      applied the adjustments sent, which are as many as there are secondaries read whose difference
      exceeds the threshold; as skipped the other secondaries read; and the largest difference of
      any, or zero. With the primary out of reach nothing else is reported. */
  lemma CycleStatsRight(cards: seq<CardState>, primary: nat, threshold: i64, readAt: nat -> nat)
    ensures var r := CycleStats(cards, primary, threshold, readAt);
            var n := if |cards| < MAX_CARDS then |cards| else MAX_CARDS;
            && r.cardsRead == n
            && (n <= primary ==> r.applied == 0 && r.skipped == 0 && r.maxOffsetNs == 0)
            && (primary < n ==>
                  && r.applied == |Asked(cards, primary, threshold, readAt)|
                  && r.applied == |Beyond(cards, primary, threshold, readAt, n)|
                  && r.applied + r.skipped == n - 1
                  && r.maxOffsetNs >= 0
                  && (forall i | 0 <= i < n && i != primary :: Difference(cards, primary, i, readAt) <= r.maxOffsetNs)
                  && (r.maxOffsetNs > 0 ==> exists i :: 0 <= i < n && i != primary
                                                        && Difference(cards, primary, i, readAt) == r.maxOffsetNs))
  {
    hide SnapshotOf, OffsetNs, Magnitude, Stats, Adjustments, FindSnapshot, Occurrences, Beyond;
    var n := if |cards| < MAX_CARDS then |cards| else MAX_CARDS;
    var snaps := Readable(cards, readAt);
    FindsPrimary(cards, primary, readAt);
    if primary < n {
      var primaryNs := SnapshotOf(cards[primary], primary, readAt(primary)).tsfNs;
      StatsRight(snaps, primary, primaryNs, threshold);
      EveryCardRead(snaps, primary, primaryNs, threshold);
      InOrder(cards, readAt, n);
      InOrderOnce(snaps, primary);
      AskedCount(cards, primary, threshold, readAt, n);
      LargestRead(cards, primary, readAt, n, Stats(snaps, primary, primaryNs, threshold).maxOffsetNs);
    }
  }

  lemma LargestRead(cards: seq<CardState>, primary: nat, readAt: nat -> nat, n: nat, most: i64)
    requires primary < |cards| && n <= |cards|
    requires var snaps, ns := Snapshots(cards, readAt, n), SnapshotOf(cards[primary], primary, readAt(primary)).tsfNs;
             && (forall x | x in snaps && x.cardIndex != primary :: Magnitude(OffsetNs(ns, x)) <= most)
             && (most > 0 ==> exists x :: x in snaps && x.cardIndex != primary && Magnitude(OffsetNs(ns, x)) == most)
    ensures forall i | 0 <= i < n && i != primary :: Difference(cards, primary, i, readAt) <= most
    ensures most > 0 ==> exists i :: 0 <= i < n && i != primary && Difference(cards, primary, i, readAt) == most
  {
    hide SnapshotOf, OffsetNs, Magnitude;
    var snaps, ns := Snapshots(cards, readAt, n), SnapshotOf(cards[primary], primary, readAt(primary)).tsfNs;
    InOrder(cards, readAt, n);
    assert forall i | 0 <= i < n :: snaps[i] in snaps;
    if most > 0 {
      var x :| x in snaps && x.cardIndex != primary && Magnitude(OffsetNs(ns, x)) == most;
      var i :| 0 <= i < n && snaps[i] == x;
      assert Difference(cards, primary, i, readAt) == most;
    }
  }
}
