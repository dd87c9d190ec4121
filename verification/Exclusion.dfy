/** No two threads ever use one card's hardware, or one card's VIF, or the list, at the same time;
    and which operations use which hardware. */
module Exclusion {
  import opened Machine
  import opened Locks
  import opened Cards
  import opened ModeB
  import opened ModeBBounds
  import opened Chardev
  import opened CardTable
  import opened LockOrder
  import opened NoDeadlock

  // ---------------------------------------------------------------- one at a time

  /** What thread `i` does next is to touch `x`. */
  ghost predicate AboutToTouch(ts: seq<Thread>, i: nat, x: Shared) {
    i < |ts| && ts[i].todo != [] && ts[i].todo[0] == Touch(x)
  }

  lemma HoldsGuards(ts: seq<Thread>, i: nat, x: Shared)
    requires Orderly(ts) && AboutToTouch(ts, i, x)
    ensures Guards(x) <= ts[i].held && Guards(x) != {}
  {
    hide Guards;
    assert After(ts[i].held, ts[i].todo) == Some({});
    SomeGuard(x);
  }

  lemma SomeGuard(x: Shared)
    ensures Guards(x) != {}
  {
  }

  /** Whatever operations any number of threads run, and however they are interleaved: a thread that
      touches something shared has the locks for it, no other has any of them, and so no two touch
      it at once. */
  lemma NeverTogether(threads: seq<seq<Operation>>, schedule: seq<nat>)
    requires Exec(Start(threads), schedule).Some?
    ensures var ts := Exec(Start(threads), schedule).value;
            && (forall i: nat, x | AboutToTouch(ts, i, x) :: Guards(x) <= ts[i].held)
            && (forall i: nat, j: nat, x | AboutToTouch(ts, i, x) && j < |ts| && i != j :: Guards(x) !! ts[j].held)
            && (forall i: nat, j: nat, x | AboutToTouch(ts, i, x) && AboutToTouch(ts, j, x) :: i == j)
  {
    hide Exec, Start, Guards, Orderly;
    StartOrderly(threads);
    ExecOrderly(Start(threads), schedule);
    var ts := Exec(Start(threads), schedule).value;
    forall i: nat, x | AboutToTouch(ts, i, x) ensures Guards(x) <= ts[i].held {
      HoldsGuards(ts, i, x);
    }
    forall i: nat, j: nat, x | AboutToTouch(ts, i, x) && j < |ts| && i != j ensures Guards(x) !! ts[j].held {
      OthersLack(ts, i, j, x);
    }
    forall i: nat, j: nat, x | AboutToTouch(ts, i, x) && AboutToTouch(ts, j, x) ensures i == j {
      NotBoth(ts, i, j, x);
    }
  }

  lemma OthersLack(ts: seq<Thread>, i: nat, j: nat, x: Shared)
    requires Orderly(ts) && AboutToTouch(ts, i, x) && j < |ts| && i != j
    ensures Guards(x) !! ts[j].held
  {
    hide Guards;
    HoldsGuards(ts, i, x);
    forall l | l in Guards(x) ensures l !in ts[j].held {
      assert l in ts[i].held;
    }
  }

  lemma NotBoth(ts: seq<Thread>, i: nat, j: nat, x: Shared)
    requires Orderly(ts) && AboutToTouch(ts, i, x) && AboutToTouch(ts, j, x)
    ensures i == j
  {
    hide Guards, Orderly;
    HoldsGuards(ts, j, x);
    if i != j {
      OthersLack(ts, i, j, x);
    }
  }

  // ---------------------------------------------------------------- who touches what

  predicate Touches(script: seq<LockAction>, x: Shared) {
    Touch(x) in script
  }

  lemma TouchesBoth(a: seq<LockAction>, b: seq<LockAction>, x: Shared)
    ensures Touches(a + b, x) <==> Touches(a, x) || Touches(b, x)
  {
  }

  /** A section of one lock and the list. */
  lemma TouchesInside(l: Lock, inner: seq<LockAction>, w: nat)
    ensures Touches([Acquire(l), Touch(CardList)] + inner + [Release(l)], Hardware(w)) <==> Touches(inner, Hardware(w))
    ensures Touches([Acquire(l)] + inner + [Release(l)], Hardware(w)) <==> Touches(inner, Hardware(w))
    ensures !Touches([], Hardware(w))
  {
  }

  predicate IsUp(c: CardState, w: nat) {
    c.wiphy == w && c.vif.Some?
  }

  lemma TurnTouches(c: CardState, w: nat)
    ensures Touches(TurnLocks(c), Hardware(w)) <==> IsUp(c, w)
  {
  }

  lemma {:induction false} EachTurnTouches(cards: seq<CardState>, n: nat, w: nat)
    requires n <= |cards|
    ensures Touches(EachTurnLocks(cards, n), Hardware(w)) <==> exists i :: 0 <= i < n && IsUp(cards[i], w)
  {
    hide TurnLocks, Touches, IsUp;
    TouchesInside(CardsLock, [], w);
    if n > 0 {
      EachTurnTouches(cards, n - 1, w);
      TurnTouches(cards[n - 1], w);
      TouchesBoth(EachTurnLocks(cards, n - 1), TurnLocks(cards[n - 1]), Hardware(w));
    }
  }

  lemma {:induction false} SecondariesTouch(cards: seq<CardState>, p: nat, n: nat, w: nat)
    requires n <= |cards|
    ensures Touches(SecondaryLocks(cards, p, n), Hardware(w))
       <==> exists i :: 0 <= i < n && i != p && IsUp(cards[i], w)
  {
    hide TurnLocks, Touches, IsUp;
    TouchesInside(CardsLock, [], w);
    if n > 0 {
      SecondariesTouch(cards, p, n - 1, w);
      TurnTouches(cards[n - 1], w);
      TouchesBoth(SecondaryLocks(cards, p, n - 1), if n - 1 == p then [] else TurnLocks(cards[n - 1]), Hardware(w));
    }
  }

  /** The entry makes its card's hardware move. */
  predicate Reaches(a: Adjustment, cards: seq<CardState>, threshold: u32, w: nat) {
    !Below(a.deltaNs, threshold) && a.cardIndex < |cards| && IsUp(cards[a.cardIndex], w)
  }

  lemma EntryTouches(cards: seq<CardState>, a: Adjustment, threshold: u32, w: nat)
    ensures Touches(EntryLocks(cards, a, threshold), Hardware(w)) <==> Reaches(a, cards, threshold, w)
  {
    hide TurnLocks, Below, Touches, IsUp;
    TouchesInside(CardsLock, [], w);
    if a.cardIndex < |cards| {
      TurnTouches(cards[a.cardIndex], w);
    }
  }

  lemma {:induction false} BatchTouches(cards: seq<CardState>, adjs: seq<Adjustment>, threshold: u32, w: nat)
    ensures Touches(BatchLocks(cards, adjs, threshold), Hardware(w))
       <==> exists k :: 0 <= k < |adjs| && Reaches(adjs[k], cards, threshold, w)
  {
    hide EntryLocks, Touches, Reaches;
    TouchesInside(CardsLock, [], w);
    if adjs != [] {
      var init, last := adjs[..|adjs| - 1], adjs[|adjs| - 1];
      BatchTouches(cards, init, threshold, w);
      EntryTouches(cards, last, threshold, w);
      TouchesBoth(BatchLocks(cards, init, threshold), EntryLocks(cards, last, threshold), Hardware(w));
    }
  }

  lemma CycleTouches(cards: seq<CardState>, name: string, w: nat)
    ensures Touches(CycleLocks(cards, name), Hardware(w))
       <==> exists p: nat, i :: Leads(cards, name, p) && cards[p].vif.Some? && 0 <= i < |cards| && IsUp(cards[i], w)
  {
    hide TurnLocks, SecondaryLocks, Touches, Leads, Primary;
    PrimaryLeads(cards, name);
    TouchesInside(CardsLock, [], w);
    var found := Primary(cards, name);
    if found.Some? {
      var p := found.value;
      LeaderTouches(cards, p, w);
      var rest := if cards[p].vif.None? then [] else SecondaryLocks(cards, p, |cards|);
      TouchesInside(CardsLock, TurnLocks(cards[p]) + rest, w);
    }
  }

  lemma LeaderTouches(cards: seq<CardState>, p: nat, w: nat)
    requires p < |cards|
    ensures var rest := if cards[p].vif.None? then [] else SecondaryLocks(cards, p, |cards|);
            Touches(TurnLocks(cards[p]) + rest, Hardware(w))
            <==> cards[p].vif.Some? && exists i :: 0 <= i < |cards| && IsUp(cards[i], w)
  {
    hide TurnLocks, SecondaryLocks, Touches;
    TurnTouches(cards[p], w);
    SecondariesTouch(cards, p, |cards|, w);
    TouchesInside(CardsLock, [], w);
    TouchesBoth(TurnLocks(cards[p]), if cards[p].vif.None? then [] else SecondaryLocks(cards, p, |cards|), Hardware(w));
  }

  /** The hardware an operation may use: reading or setting a clock, its own; a step that is not below
      the threshold, its own; a cycle of Mode B whose leader has a VIF, and a read of the device, that
      of every card that has one; a write, that of the cards its entries reach. The notifier, loading
      and unloading use none. */
  ghost predicate Operates(op: Operation, w: nat) {
    match op
    case ClockAccess(c) => IsUp(c, w)
    case Adjust(c, delta, threshold) => !Below(delta, threshold) && IsUp(c, w)
    case Sync(cards, name) =>
      exists p: nat, i :: Leads(cards, name, p) && cards[p].vif.Some? && 0 <= i < |cards| && IsUp(cards[i], w)
    case DeviceRead(cards) => exists i :: 0 <= i < |cards| && IsUp(cards[i], w)
    case DeviceWrite(cards, adjs, threshold) => exists k :: 0 <= k < |adjs| && Reaches(adjs[k], cards, threshold, w)
    case Notify(_, _, _, _, _) => false
    case Load(_, _, _, _) => false
    case Unload(_) => false
  }

  lemma TableQuiet(cards: seq<CardState>, wiphy: nat, hw: Hw, w: nat)
    ensures !Touches(TakeCards(), Hardware(w)) && !Touches(VifLocks(cards, wiphy), Hardware(w))
    ensures !Touches(ProbeLocks(cards, wiphy, hw), Hardware(w))
  {
    hide FindByWiphy;
  }

  lemma NotifyQuiet(cards: seq<CardState>, kind: EventKind, dev: NetDev, devs: seq<NetDev>, hw: nat -> Hw, w: nat)
    ensures !Touches(HandledLocks(cards, kind, dev, devs, hw), Hardware(w))
  {
    hide FindByWiphy, HasDevice, VifLocks, ProbeLocks, TakeCards;
    if dev.wiphy.Some? {
      TableQuiet(cards, dev.wiphy.value, hw(dev.wiphy.value), w);
    }
  }

  lemma {:induction false} DiscoverQuiet(cards: seq<CardState>, devs: seq<NetDev>, hw: nat -> Hw,
                                         clock: nat -> u64, w: nat)
    ensures !Touches(DiscoverLocks(cards, devs, hw, clock), Hardware(w))
  {
    hide ProbeLocks, Discovered;
    if devs != [] {
      var init, dev := devs[..|devs| - 1], devs[|devs| - 1];
      DiscoverQuiet(cards, init, hw, clock, w);
      if dev.wiphy.Some? {
        TableQuiet(Discovered(cards, init, hw, clock), dev.wiphy.value, hw(dev.wiphy.value), w);
      }
    }
  }

  lemma {:induction false} ScanQuiet(cards: seq<CardState>, devs: seq<NetDev>, w: nat)
    ensures !Touches(ScanLocks(cards, devs), Hardware(w))
  {
    hide VifLocks, Scanned;
    if devs != [] {
      var init, dev := devs[..|devs| - 1], devs[|devs| - 1];
      ScanQuiet(cards, init, w);
      if dev.wiphy.Some? {
        TableQuiet(Scanned(cards, init), dev.wiphy.value, Hw("", true, true), w);
      }
    }
  }

  lemma {:induction false} UnloadQuiet(n: nat, w: nat)
    ensures !Touches(UnloadLocks(n), Hardware(w))
  {
    if n > 0 {
      UnloadQuiet(n - 1, w);
    }
  }

  /** Every operation's script touches exactly that. */
  lemma TouchesExactly(op: Operation, w: nat)
    ensures Touches(Script(op), Hardware(w)) <==> Operates(op, w)
  {
    hide Touches, TurnLocks, Below, CycleLocks, EachTurnLocks, BatchLocks, HandledLocks, DiscoverLocks, ScanLocks,
         UnloadLocks, IsUp, Leads, Discovered;
    TouchesInside(CardsLock, [], w);
    match op
    case ClockAccess(c) => TurnTouches(c, w);
    case Adjust(c, delta, threshold) => TurnTouches(c, w);
    case Sync(cards, name) => CycleTouches(cards, name, w);
    case DeviceRead(cards) =>
      EachTurnTouches(cards, |cards|, w);
      TouchesInside(CardsLock, EachTurnLocks(cards, |cards|), w);
    case DeviceWrite(cards, adjs, threshold) =>
      BatchTouches(cards, adjs, threshold, w);
      TouchesInside(CardsLock, BatchLocks(cards, adjs, threshold), w);
    case Notify(cards, kind, dev, devs, hw) =>
      NotifyQuiet(cards, kind, dev, devs, hw, w);
      TouchesInside(RtnlLock, HandledLocks(cards, kind, dev, devs, hw), w);
    case Load(cards, devs, hw, clock) => LoadQuiet(cards, devs, hw, clock, w);
    case Unload(n) => UnloadQuiet(n, w);
  }

  lemma LoadQuiet(cards: seq<CardState>, devs: seq<NetDev>, hw: nat -> Hw, clock: nat -> u64, w: nat)
    ensures !Touches(Script(Load(cards, devs, hw, clock)), Hardware(w))
  {
    hide DiscoverLocks, ScanLocks, Discovered;
    DiscoverQuiet(cards, devs, hw, clock, w);
    ScanQuiet(Discovered(cards, devs, hw, clock), devs, w);
  }

  // ---------------------------------------------------------------- nothing changes untouched

  /** A cycle that changes a card's clock touches its hardware. */
  lemma CycleChangesTouch(s: ModuleState, name: string, threshold: u32, start: nat, when: nat -> Access, i: nat)
    requires i < |s.cards|
    requires SyncCycle(s, name, threshold, start, when).cards[i].bias != s.cards[i].bias
    ensures Touches(CycleLocks(s.cards, name), Hardware(s.cards[i].wiphy))
  {
    hide SyncCycle, Touches, CycleLocks, Leads, Below, WrapU, DeltaNs, Primary;
    CycleTouches(s.cards, name, s.cards[i].wiphy);
    PrimaryLeads(s.cards, name);
    if Primary(s.cards, name).Some? {
      LeaderDecides(s, name, threshold, start, when, Primary(s.cards, name).value);
      assert IsUp(s.cards[i], s.cards[i].wiphy);
    } else {
      NobodyLeads(s, name, threshold, start, when);
    }
  }

  /** A batch that changes a card touches its hardware. */
  lemma BatchChangesTouch(s: ModuleState, adjs: seq<Adjustment>, when: nat -> Access, threshold: u32, i: nat)
    requires i < |s.cards|
    requires WriteEntries(s, Stamp(adjs, when), threshold).cards[i] != s.cards[i]
    ensures Touches(BatchLocks(s.cards, adjs, threshold), Hardware(s.cards[i].wiphy))
  {
    hide Touches, BatchLocks, WriteEntries, Reaches;
    BatchTouches(s.cards, adjs, threshold, s.cards[i].wiphy);
    if forall k | 0 <= k < |adjs| :: !Reaches(adjs[k], s.cards, threshold, s.cards[i].wiphy) {
      Unreached(s, adjs, when, threshold, i);
    }
  }

  lemma {:induction false} Unreached(s: ModuleState, adjs: seq<Adjustment>, when: nat -> Access, threshold: u32, i: nat)
    requires i < |s.cards|
    requires forall k | 0 <= k < |adjs| :: !Reaches(adjs[k], s.cards, threshold, s.cards[i].wiphy)
    ensures WriteEntries(s, Stamp(adjs, when), threshold).cards[i] == s.cards[i]
  {
    hide Below, Magnitude, WrapU, TruncDiv;
    if adjs != [] {
      var n := |adjs| - 1;
      Unreached(s, adjs[..n], when, threshold, i);
      assert Stamp(adjs, when)[..n] == Stamp(adjs[..n], when);
    }
  }

  /** An event that changes a VIF touches it, and one that changes the list touches that. */
  lemma EventChangesTouch(cards: seq<CardState>, wiphy: nat, dev: nat, devs: seq<NetDev>, hw: Hw, clock: u64)
    ensures VifUp(cards, wiphy, dev) != cards || VifGone(cards, wiphy, dev) != cards
            ==> Touches(VifLocks(cards, wiphy), Vif(wiphy))
    ensures var up, gone := VifUp(cards, wiphy, dev), VifGone(cards, wiphy, dev);
            && |up| == |cards| == |gone|
            && forall i | 0 <= i < |cards| && cards[i].wiphy != wiphy :: up[i] == cards[i] && gone[i] == cards[i]
    ensures Probed(cards, wiphy, hw, clock) != cards ==> Touches(ProbeLocks(cards, wiphy, hw), CardList)
    ensures Removed(cards, wiphy, devs) != cards ==> !HasDevice(devs, wiphy) && Touches(TakeCards(), CardList)
  {
    hide FindByWiphy;
  }
}
