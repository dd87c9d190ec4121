/** Corrections by time step: `adjtime` (kernel/tsf_ptp.c:207-240) and the Mode C character
    device (kernel/tsf_ptp.c:792-934, kernel/tsf_ptp_uapi.h). */
module Chardev {
  import opened Machine
  import opened Locks
  import opened Cards
  import opened ModeB

  datatype Snapshot = Snapshot(cardIndex: nat, phyName: string, tsfNs: i64)

  datatype Adjustment = Adjustment(cardIndex: nat, deltaNs: i64)

  /** The packed sizes of the two records. */
  const SNAPSHOT_SIZE: nat := 56
  const ADJUSTMENT_SIZE: nat := 12

  // ---------------------------------------------------------------- adjtime

  function AdjTimeEffect(s: ModuleState, i: nat, delta: i64, threshold: u32, at: Access): ModuleState
    requires i < |s.cards|
  {
    var c := s.cards[i];
    var next := s.(cards := s.cards[i := AdjustCard(c, delta, threshold, at)]);
    if Below(delta, threshold) then next.(skipped := s.skipped + 1)
    else if c.vif.None? then next
    else next.(applied := s.applied + 1)
  }

  function AdjTimeLocks(c: CardState, delta: i64, threshold: u32): seq<LockAction> {
    if Below(delta, threshold) then [] else TurnLocks(c)
  }

  /** Read, add, write back, on a card with a VIF. */
  method StepClock(card: Card, delta: i64, at: Access)
    requires card.vif.Some?
    modifies card
    ensures forall threshold: u32 | !Below(delta, threshold) ::
              card.State() == AdjustCard(old(card.State()), delta, threshold, at)
  {
    hide WrapU, Below, TruncDiv;
    var tsf := card.GetTsf(at.read);
    card.SetTsf(at.write, WrapU(tsf + TruncDiv(delta, 1000)));
  }

  /** False for -ENODEV. The operation exists only for a card whose driver can write its TSF. */
  method AdjTime(m: TsfPtp, i: nat, delta: i64, at: Access) returns (ok: bool, ghost locks: seq<LockAction>)
    requires m.Valid() && i < |m.cards| && m.cards[i].writable
    modifies m`applied, m`skipped, m.cards[i]
    ensures m.View() == AdjTimeEffect(old(m.View()), i, delta, m.threshold, at)
    ensures ok == (Below(delta, m.threshold) || m.cards[i].vif.Some?)
    ensures locks == AdjTimeLocks(old(m.cards[i].State()), delta, m.threshold)
  {
    hide WrapU, States, Magnitude, TruncDiv;
    var card := m.cards[i];
    locks := [];
    if m.threshold > 0 && Magnitude(delta) < m.threshold {
      m.skipped := m.skipped + 1;
      assert m.View().cards == old(m.View().cards)[i := card.State()];
      return true, locks;
    }
    locks := [Acquire(CardLock(card.wiphy)), Touch(Vif(card.wiphy))];
    if card.vif.None? {
      locks := locks + [Release(CardLock(card.wiphy))];
      assert m.View().cards == old(m.View().cards)[i := card.State()];
      return false, locks;
    }
    locks := locks + [Acquire(WiphyLock(card.wiphy)), Touch(Hardware(card.wiphy))];
    StepClock(card, delta, at);
    locks := locks + [Release(WiphyLock(card.wiphy)), Release(CardLock(card.wiphy))];
    m.applied := m.applied + 1;
    assert m.View().cards == old(m.View().cards)[i := card.State()];
    return true, locks;
  }

  // ---------------------------------------------------------------- reading the device

  /** A card without a VIF reads as time zero. */
  function SnapshotOf(c: CardState, i: nat, now: nat): Snapshot {
    Snapshot(i, c.phyName, if c.vif.None? then 0 else ToNs(WrapS(c.Tsf(now))))
  }

  function Snapshots(cards: seq<CardState>, when: nat -> nat, n: nat): (r: seq<Snapshot>)
    requires n <= |cards|
    ensures |r| == n
    ensures forall i | 0 <= i < n :: r[i] == SnapshotOf(cards[i], i, when(i))
  {
    if n == 0 then [] else Snapshots(cards, when, n - 1) + [SnapshotOf(cards[n - 1], n - 1, when(n - 1))]
  }

  function EachTurnLocks(cards: seq<CardState>, n: nat): seq<LockAction>
    requires n <= |cards|
  {
    if n == 0 then [] else EachTurnLocks(cards, n - 1) + TurnLocks(cards[n - 1])
  }

  method TakeSnapshot(card: Card, i: nat, now: nat) returns (snap: Snapshot, ghost locks: seq<LockAction>)
    ensures snap == SnapshotOf(card.State(), i, now)
    ensures locks == TurnLocks(card.State())
  {
    hide WrapU, WrapS, ToNs;
    locks := [Acquire(CardLock(card.wiphy)), Touch(Vif(card.wiphy))];
    var tsfNs: i64 := 0;
    if card.vif.Some? {
      locks := locks + [Acquire(WiphyLock(card.wiphy)), Touch(Hardware(card.wiphy))];
      var tsf := card.GetTsf(now);
      locks := locks + [Release(WiphyLock(card.wiphy))];
      tsfNs := ToNs(WrapS(tsf));
    }
    locks := locks + [Release(CardLock(card.wiphy))];
    snap := Snapshot(i, card.phyName, tsfNs);
  }

  method TakeSnapshots(m: TsfPtp, when: nat -> nat) returns (snaps: seq<Snapshot>, ghost locks: seq<LockAction>)
    ensures snaps == Snapshots(m.View().cards, when, |m.cards|)
    ensures locks == EachTurnLocks(m.View().cards, |m.cards|)
  {
    hide SnapshotOf, TurnLocks, States;
    locks := [];
    snaps := [];
    ghost var cards := m.View().cards;
    for i := 0 to |m.cards|
      invariant snaps == Snapshots(cards, when, i)
      invariant locks == EachTurnLocks(cards, i)
    {
      ghost var turn;
      var snap;
      snap, turn := TakeSnapshot(m.cards[i], i, when(i));
      assert m.cards[i].State() == cards[i];
      snaps := snaps + [snap];
      locks := locks + turn;
    }
  }

  /** The records prepared, and how many bytes of them fit into the caller's `count`. */
  method Read(m: TsfPtp, count: nat, when: nat -> nat)
    returns (bytes: nat, snaps: seq<Snapshot>, ghost locks: seq<LockAction>)
    ensures snaps == Snapshots(m.View().cards, when, |m.cards|)
    ensures bytes == (if count < SNAPSHOT_SIZE * |m.cards| then count else SNAPSHOT_SIZE * |m.cards|)
    ensures locks == [Acquire(CardsLock), Touch(CardList)] + EachTurnLocks(m.View().cards, |m.cards|)
                     + [Release(CardsLock)]
  {
    hide Snapshots, EachTurnLocks, States;
    ghost var turns;
    snaps, turns := TakeSnapshots(m, when);
    locks := [Acquire(CardsLock), Touch(CardList)] + turns + [Release(CardsLock)];
    bytes := if count < SNAPSHOT_SIZE * |m.cards| then count else SNAPSHOT_SIZE * |m.cards|;
  }

  // ---------------------------------------------------------------- writing it

  /** An adjustment and the instants at which it reaches its card. */
  datatype Entry = Entry(adj: Adjustment, at: Access)

  /** One entry of a batch: `adjtime` on the card it names, nothing if there is no such card. */
  function EntryEffect(s: ModuleState, e: Entry, threshold: u32): ModuleState {
    if e.adj.cardIndex < |s.cards| then AdjTimeEffect(s, e.adj.cardIndex, e.adj.deltaNs, threshold, e.at)
    else if Below(e.adj.deltaNs, threshold) then s.(skipped := s.skipped + 1)
    else s
  }

  function WriteEntries(s: ModuleState, es: seq<Entry>, threshold: u32): (r: ModuleState)
    ensures |r.cards| == |s.cards|
  {
    if es == [] then s else
      EntryEffect(WriteEntries(s, es[..|es| - 1], threshold), es[|es| - 1], threshold)
  }

  function Stamp(adjs: seq<Adjustment>, when: nat -> Access): (r: seq<Entry>)
    ensures |r| == |adjs|
    ensures forall i | 0 <= i < |adjs| :: r[i] == Entry(adjs[i], when(i))
  {
    if adjs == [] then [] else
      Stamp(adjs[..|adjs| - 1], when) + [Entry(adjs[|adjs| - 1], when(|adjs| - 1))]
  }

  function EntryLocks(cards: seq<CardState>, a: Adjustment, threshold: u32): seq<LockAction> {
    if a.cardIndex < |cards| then AdjTimeLocks(cards[a.cardIndex], a.deltaNs, threshold) else []
  }

  function BatchLocks(cards: seq<CardState>, adjs: seq<Adjustment>, threshold: u32): seq<LockAction> {
    if adjs == [] then [] else
      BatchLocks(cards, adjs[..|adjs| - 1], threshold) + EntryLocks(cards, adjs[|adjs| - 1], threshold)
  }

  /** `ListHeadTaken` stands for the kernel using the list head as if it were a card: what
      follows is not defined, and the model stops at that entry. */
  datatype WriteResult = Wrote(bytes: nat) | InvalidArgument | ListHeadTaken(entry: nat)

  /** The search for the card runs off the end of the list exactly at the index looked for. */
  predicate TakesListHead(a: Adjustment, cards: nat, threshold: u32) {
    a.cardIndex == cards && !Below(a.deltaNs, threshold)
  }

  /** How many entries come before the first that takes the list head. */
  function SoundEntries(adjs: seq<Adjustment>, cards: nat, threshold: u32): (n: nat)
    ensures n <= |adjs|
    ensures forall k | 0 <= k < n :: !TakesListHead(adjs[k], cards, threshold)
    ensures n < |adjs| ==> TakesListHead(adjs[n], cards, threshold)
  {
    if adjs == [] || TakesListHead(adjs[0], cards, threshold) then 0
    else 1 + SoundEntries(adjs[1..], cards, threshold)
  }

  /** One entry. An index equal to the number of cards, past the threshold, makes the kernel use
      the list head as a card; larger ones are ignored. */
  method WriteEntry(m: TsfPtp, a: Adjustment, threshold: u32, at: Access)
    returns (sound: bool, ghost locks: seq<LockAction>)
    requires m.Valid()
    modifies m`applied, m`skipped, m.cards
    ensures sound == !TakesListHead(a, |m.cards|, threshold)
    ensures m.View() == if sound then EntryEffect(old(m.View()), Entry(a, at), threshold) else old(m.View())
    ensures sound ==> locks == EntryLocks(old(m.View()).cards, a, threshold)
    ensures forall i | 0 <= i < |m.cards| :: m.cards[i].vif == old(m.cards[i].vif)
  {
    hide WrapU, States, Magnitude, TruncDiv;
    locks := [];
    if threshold > 0 && Magnitude(a.deltaNs) < threshold {
      m.skipped := m.skipped + 1;
      assert m.View().cards == old(m.View().cards);
      return true, locks;
    }
    var idx := 0;
    while idx < |m.cards| && idx != a.cardIndex
      invariant idx <= |m.cards|
      invariant a.cardIndex < |m.cards| ==> idx <= a.cardIndex
    {
      idx := idx + 1;
    }
    if idx != a.cardIndex {
      return true, locks;
    }
    if idx == |m.cards| {
      return false, locks;
    }
    var card := m.cards[idx];
    locks := [Acquire(CardLock(card.wiphy)), Touch(Vif(card.wiphy))];
    if card.vif.None? {
      locks := locks + [Release(CardLock(card.wiphy))];
      assert m.View().cards == old(m.View().cards);
      return true, locks;
    }
    locks := locks + [Acquire(WiphyLock(card.wiphy)), Touch(Hardware(card.wiphy))];
    StepClock(card, a.deltaNs, at);
    locks := locks + [Release(WiphyLock(card.wiphy)), Release(CardLock(card.wiphy))];
    m.applied := m.applied + 1;
    sound := true;
    assert m.View().cards == old(m.View().cards)[idx := card.State()];
  }

  function WriteLocks(cards: seq<CardState>, adjs: seq<Adjustment>, threshold: u32): seq<LockAction> {
    if adjs == [] then [] else
      [Acquire(CardsLock), Touch(CardList)] + BatchLocks(cards, adjs, threshold) + [Release(CardsLock)]
  }

  /** `adjs` are the whole records in a buffer of `count` bytes. */
  method Write(m: TsfPtp, count: nat, adjs: seq<Adjustment>, when: nat -> Access)
    returns (r: WriteResult, ghost locks: seq<LockAction>)
    requires m.Valid()
    requires |adjs| == count / ADJUSTMENT_SIZE
    modifies m`applied, m`skipped, m.cards
    ensures var n := SoundEntries(adjs, |m.cards|, m.threshold);
            && m.View() == WriteEntries(old(m.View()), Stamp(adjs[..n], when), m.threshold)
            && r == if count == 0 then Wrote(0) else if adjs == [] then InvalidArgument
                    else if n < |adjs| then ListHeadTaken(n) else Wrote(ADJUSTMENT_SIZE * |adjs|)
    ensures r.ListHeadTaken? <==> exists k :: 0 <= k < |adjs| && TakesListHead(adjs[k], |m.cards|, m.threshold)
    ensures !r.ListHeadTaken? ==> locks == WriteLocks(old(m.View()).cards, adjs, m.threshold)
  {
    hide EntryEffect, EntryLocks, States;
    locks := [];
    if count == 0 {
      return Wrote(0), locks;
    }
    var n := count / ADJUSTMENT_SIZE;
    if n == 0 {
      return InvalidArgument, locks;
    }
    ghost var batch;
    var done;
    done, batch := WriteAll(m, adjs, when);
    locks := [Acquire(CardsLock), Touch(CardList)] + batch + [Release(CardsLock)];
    assert adjs[..|adjs|] == adjs;
    r := if done < |adjs| then ListHeadTaken(done) else Wrote(n * ADJUSTMENT_SIZE);
  }

  method WriteAll(m: TsfPtp, adjs: seq<Adjustment>, when: nat -> Access)
    returns (done: nat, ghost locks: seq<LockAction>)
    requires m.Valid()
    modifies m`applied, m`skipped, m.cards
    ensures done == SoundEntries(adjs, |m.cards|, m.threshold)
    ensures m.View() == WriteEntries(old(m.View()), Stamp(adjs[..done], when), m.threshold)
    ensures locks == BatchLocks(old(m.View()).cards, adjs[..done], m.threshold)
  {
    hide EntryEffect, EntryLocks, States, Below, WriteEntries, BatchLocks, TakesListHead, SoundEntries;
    WriteNothing(m.View(), m.threshold);
    ghost var before := m.View();
    locks := [];
    done := 0;
    while done < |adjs|
      invariant done <= |adjs|
      invariant forall k | 0 <= k < done :: !TakesListHead(adjs[k], |m.cards|, m.threshold)
      invariant m.View() == WriteEntries(before, Stamp(adjs[..done], when), m.threshold)
      invariant locks == BatchLocks(before.cards, adjs[..done], m.threshold)
      invariant forall j | 0 <= j < |m.cards| :: m.cards[j].vif == before.cards[j].vif
    {
      ghost var here := m.View().cards;
      ghost var turn;
      var sound;
      sound, turn := WriteEntry(m, adjs[done], m.threshold, when(done));
      if !sound {
        break;
      }
      SameTurn(here, before.cards, adjs[done], m.threshold);
      locks := locks + turn;
      OneMoreEntry(before, adjs, done, when, m.threshold);
      done := done + 1;
    }
  }

  lemma WriteNothing(s: ModuleState, threshold: u32)
    ensures WriteEntries(s, [], threshold) == s && BatchLocks(s.cards, [], threshold) == []
  {
  }

  /** The locks of an entry depend on which cards have a VIF, not on their clocks. */
  lemma SameTurn(now: seq<CardState>, before: seq<CardState>, a: Adjustment, threshold: u32)
    requires |now| == |before|
    requires forall j | 0 <= j < |now| :: now[j].vif == before[j].vif && now[j].wiphy == before[j].wiphy
    ensures EntryLocks(now, a, threshold) == EntryLocks(before, a, threshold)
  {
  }

  lemma OneMoreEntry(s: ModuleState, adjs: seq<Adjustment>, i: nat, when: nat -> Access, threshold: u32)
    requires i < |adjs|
    ensures WriteEntries(s, Stamp(adjs[..i + 1], when), threshold)
         == EntryEffect(WriteEntries(s, Stamp(adjs[..i], when), threshold), Entry(adjs[i], when(i)), threshold)
    ensures BatchLocks(s.cards, adjs[..i + 1], threshold)
         == BatchLocks(s.cards, adjs[..i], threshold) + EntryLocks(s.cards, adjs[i], threshold)
  {
    hide EntryEffect, EntryLocks;
    assert adjs[..i + 1][..i] == adjs[..i];
    var es := Stamp(adjs[..i + 1], when);
    assert es[..i] == Stamp(adjs[..i], when);
  }
}
