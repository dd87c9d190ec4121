/** Threads that run the module's operations never wait for each other in a circle. Only locks
    taken in kernel/tsf_ptp.c count; a lock is known by its card's wiphy. */
module LockOrder {
  import opened Machine
  import opened Locks
  import opened Cards
  import opened ModeB
  import opened Chardev
  import opened CardTable

  // ---------------------------------------------------------------- the order

  /** rtnl, then cards_lock, then one card's lock, then one wiphy's lock. */
  function Rank(l: Lock): nat {
    match l
    case RtnlLock => 0
    case CardsLock => 1
    case CardLock(_) => 2
    case WiphyLock(_) => 3
  }

  ghost predicate Above(l: Lock, held: set<Lock>) {
    forall h | h in held :: Rank(h) < Rank(l)
  }

  /** The locks under which something shared may be touched. */
  function Guards(x: Shared): set<Lock> {
    match x
    case CardList => {CardsLock}
    case Vif(c) => {CardLock(c)}
    case Hardware(w) => {CardLock(w), WiphyLock(w)}
  }

  /** What a thread holds after `script`, if it keeps to the order, releases only what it holds, and
      touches nothing without its locks. */
  ghost function After(held: set<Lock>, script: seq<LockAction>): Option<set<Lock>>
    decreases |script|
  {
    if script == [] then Some(held) else
      match script[0]
      case Acquire(l) => if Above(l, held) then After(held + {l}, script[1..]) else None
      case Release(l) => if l in held then After(held - {l}, script[1..]) else None
      case Touch(x) => if Guards(x) <= held then After(held, script[1..]) else None
  }

  lemma {:induction false} AfterBoth(held: set<Lock>, a: seq<LockAction>, b: seq<LockAction>)
    ensures After(held, a + b) == match After(held, a) case None => None case Some(h) => After(h, b)
    decreases |a|
  {
    if a == [] {
      assert a + b == b;
    } else {
      assert (a + b)[1..] == a[1..] + b;
      match a[0] {
        case Acquire(l) => AfterBoth(held + {l}, a[1..], b);
        case Release(l) => AfterBoth(held - {l}, a[1..], b);
        case Touch(_) => AfterBoth(held, a[1..], b);
      }
    }
  }

  /** The script leaves a thread holding what it held. */
  ghost predicate Neutral(held: set<Lock>, script: seq<LockAction>) {
    After(held, script) == Some(held)
  }

  lemma NeutralNothing(held: set<Lock>)
    ensures Neutral(held, [])
  {
  }

  lemma NeutralBoth(held: set<Lock>, a: seq<LockAction>, b: seq<LockAction>)
    requires Neutral(held, a) && Neutral(held, b)
    ensures Neutral(held, a + b)
  {
    AfterBoth(held, a, b);
  }

  /** A section under one more lock. */
  lemma NeutralUnder(held: set<Lock>, l: Lock, inner: seq<LockAction>)
    requires Above(l, held) && Neutral(held + {l}, inner)
    ensures Neutral(held, [Acquire(l)] + inner + [Release(l)])
  {
    AfterBoth(held, [Acquire(l)] + inner, [Release(l)]);
    AfterBoth(held, [Acquire(l)], inner);
    assert [Acquire(l)][1..] == [] && [Release(l)][1..] == [];
    assert l !in held;
    assert held + {l} - {l} == held;
    assert After(held, [Acquire(l)]) == Some(held + {l});
    assert After(held + {l}, [Release(l)]) == Some(held);
  }

  lemma NeutralTouch(held: set<Lock>, x: Shared)
    requires Guards(x) <= held
    ensures Neutral(held, [Touch(x)])
  {
    assert [Touch(x)][1..] == [];
  }

  /** A section under one more lock that begins by touching what the lock is for. */
  lemma NeutralSection(held: set<Lock>, l: Lock, x: Shared, inner: seq<LockAction>)
    requires Above(l, held) && Guards(x) <= held + {l} && Neutral(held + {l}, inner)
    ensures Neutral(held, [Acquire(l), Touch(x)] + inner + [Release(l)])
  {
    hide Neutral, Guards;
    NeutralTouch(held + {l}, x);
    NeutralBoth(held + {l}, [Touch(x)], inner);
    NeutralUnder(held, l, [Touch(x)] + inner);
    assert [Acquire(l)] + ([Touch(x)] + inner) + [Release(l)] == [Acquire(l), Touch(x)] + inner + [Release(l)];
  }

  lemma NeutralUse(held: set<Lock>, l: Lock, x: Shared)
    requires Above(l, held) && Guards(x) <= held + {l}
    ensures Neutral(held, [Acquire(l), Touch(x), Release(l)])
  {
    hide Neutral, Guards;
    NeutralNothing(held + {l});
    NeutralSection(held, l, x, []);
    assert [Acquire(l), Touch(x)] + [] + [Release(l)] == [Acquire(l), Touch(x), Release(l)];
  }

  // ---------------------------------------------------------------- every operation keeps it

  /** A thread about to take a card's lock: it holds no card's or wiphy's lock. */
  ghost predicate Outside(held: set<Lock>) {
    forall h | h in held :: Rank(h) < 2
  }

  lemma TurnNeutral(held: set<Lock>, c: CardState)
    requires Outside(held)
    ensures Neutral(held, TurnLocks(c))
  {
    hide Neutral;
    var card, wiphy := CardLock(c.wiphy), WiphyLock(c.wiphy);
    NeutralNothing(held + {card});
    NeutralUse(held + {card}, wiphy, Hardware(c.wiphy));
    NeutralSection(held, card, Vif(c.wiphy), if c.vif.None? then [] else
      [Acquire(wiphy), Touch(Hardware(c.wiphy)), Release(wiphy)]);
  }

  lemma {:induction false} SecondariesNeutral(held: set<Lock>, cards: seq<CardState>, p: nat, n: nat)
    requires Outside(held) && n <= |cards|
    ensures Neutral(held, SecondaryLocks(cards, p, n))
  {
    hide Neutral, TurnLocks;
    NeutralNothing(held);
    if n > 0 {
      SecondariesNeutral(held, cards, p, n - 1);
      TurnNeutral(held, cards[n - 1]);
      NeutralBoth(held, SecondaryLocks(cards, p, n - 1), if n - 1 == p then [] else TurnLocks(cards[n - 1]));
    }
  }

  lemma CycleNeutral(cards: seq<CardState>, name: string)
    ensures Neutral({}, CycleLocks(cards, name))
  {
    hide Neutral, TurnLocks, SecondaryLocks, Primary;
    var held := {CardsLock};
    NeutralNothing(held);
    var found := Primary(cards, name);
    if found.Some? {
      var p := found.value;
      TurnNeutral(held, cards[p]);
      SecondariesNeutral(held, cards, p, |cards|);
      NeutralBoth(held, TurnLocks(cards[p]), if cards[p].vif.None? then [] else SecondaryLocks(cards, p, |cards|));
    }
    assert {} + {CardsLock} == held;
    var inner := match found
      case None => []
      case Some(p) => TurnLocks(cards[p]) + if cards[p].vif.None? then [] else SecondaryLocks(cards, p, |cards|);
    NeutralSection({}, CardsLock, CardList, inner);
  }

  lemma {:induction false} EachTurnNeutral(held: set<Lock>, cards: seq<CardState>, n: nat)
    requires Outside(held) && n <= |cards|
    ensures Neutral(held, EachTurnLocks(cards, n))
  {
    hide Neutral, TurnLocks;
    NeutralNothing(held);
    if n > 0 {
      EachTurnNeutral(held, cards, n - 1);
      TurnNeutral(held, cards[n - 1]);
      NeutralBoth(held, EachTurnLocks(cards, n - 1), TurnLocks(cards[n - 1]));
    }
  }

  lemma AdjTimeNeutral(held: set<Lock>, c: CardState, delta: i64, threshold: u32)
    requires Outside(held)
    ensures Neutral(held, AdjTimeLocks(c, delta, threshold))
  {
    hide Neutral, TurnLocks, Below;
    NeutralNothing(held);
    TurnNeutral(held, c);
  }

  lemma {:induction false} BatchNeutral(held: set<Lock>, cards: seq<CardState>, adjs: seq<Adjustment>, threshold: u32)
    requires Outside(held)
    ensures Neutral(held, BatchLocks(cards, adjs, threshold))
  {
    hide Neutral, AdjTimeLocks;
    NeutralNothing(held);
    if adjs != [] {
      var init, last := adjs[..|adjs| - 1], adjs[|adjs| - 1];
      BatchNeutral(held, cards, init, threshold);
      if last.cardIndex < |cards| {
        AdjTimeNeutral(held, cards[last.cardIndex], last.deltaNs, threshold);
      }
      NeutralBoth(held, BatchLocks(cards, init, threshold), EntryLocks(cards, last, threshold));
    }
  }

  /** A thread about to take cards_lock. */
  ghost predicate Clear(held: set<Lock>) {
    forall h | h in held :: Rank(h) < 1
  }

  lemma ProbeNeutral(held: set<Lock>, cards: seq<CardState>, wiphy: nat, hw: Hw)
    requires Clear(held)
    ensures Neutral(held, TakeCards()) && Neutral(held, ProbeLocks(cards, wiphy, hw))
  {
    hide Neutral, FindByWiphy;
    NeutralUse(held, CardsLock, CardList);
    NeutralNothing(held);
    NeutralBoth(held, TakeCards(), TakeCards());
  }

  lemma VifNeutral(held: set<Lock>, cards: seq<CardState>, wiphy: nat)
    requires Clear(held)
    ensures Neutral(held, VifLocks(cards, wiphy))
  {
    hide Neutral, FindByWiphy;
    NeutralNothing(held + {CardsLock});
    NeutralUse(held + {CardsLock}, CardLock(wiphy), Vif(wiphy));
    NeutralSection(held, CardsLock, CardList, if FindByWiphy(cards, wiphy, 0).None? then [] else
      [Acquire(CardLock(wiphy)), Touch(Vif(wiphy)), Release(CardLock(wiphy))]);
  }

  lemma EventNeutral(held: set<Lock>, cards: seq<CardState>, kind: EventKind, dev: NetDev, devs: seq<NetDev>,
                     hw: nat -> Hw)
    requires Clear(held)
    ensures Neutral(held, HandledLocks(cards, kind, dev, devs, hw))
  {
    hide Neutral, FindByWiphy, HasDevice, VifLocks, ProbeLocks, TakeCards;
    NeutralNothing(held);
    if dev.wiphy.Some? {
      var w := dev.wiphy.value;
      ProbeNeutral(held, cards, w, hw(w));
      VifNeutral(held, cards, w);
      NeutralBoth(held, TakeCards(), if FindByWiphy(cards, w, 0).Some? then [] else ProbeLocks(cards, w, hw(w)));
      NeutralBoth(held, VifLocks(cards, w), if HasDevice(devs, w) then [] else TakeCards());
    }
  }

  lemma {:induction false} DiscoverNeutral(held: set<Lock>, cards: seq<CardState>, devs: seq<NetDev>,
                                        hw: nat -> Hw, clock: nat -> u64)
    requires Clear(held)
    ensures Neutral(held, DiscoverLocks(cards, devs, hw, clock))
  {
    hide Neutral, ProbeLocks, Discovered;
    NeutralNothing(held);
    if devs != [] {
      var init, dev := devs[..|devs| - 1], devs[|devs| - 1];
      DiscoverNeutral(held, cards, init, hw, clock);
      var turn := if dev.wiphy.None? then []
                  else ProbeLocks(Discovered(cards, init, hw, clock), dev.wiphy.value, hw(dev.wiphy.value));
      if dev.wiphy.Some? {
        ProbeNeutral(held, Discovered(cards, init, hw, clock), dev.wiphy.value, hw(dev.wiphy.value));
      }
      NeutralBoth(held, DiscoverLocks(cards, init, hw, clock), turn);
    }
  }

  lemma {:induction false} ScanNeutral(held: set<Lock>, cards: seq<CardState>, devs: seq<NetDev>)
    requires Clear(held)
    ensures Neutral(held, ScanLocks(cards, devs))
  {
    hide Neutral, VifLocks, Scanned;
    NeutralNothing(held);
    if devs != [] {
      var init, dev := devs[..|devs| - 1], devs[|devs| - 1];
      ScanNeutral(held, cards, init);
      var turn := if dev.wiphy.None? || !dev.up then [] else VifLocks(Scanned(cards, init), dev.wiphy.value);
      if dev.wiphy.Some? {
        VifNeutral(held, Scanned(cards, init), dev.wiphy.value);
      }
      NeutralBoth(held, ScanLocks(cards, init), turn);
    }
  }

  /** The module's operations, on whatever table they meet. The notifier is called with the rtnl
      lock held; unloading drops cards_lock around each card it frees. */
  datatype Operation =
    | ClockAccess(card: CardState)
    | Adjust(card: CardState, delta: i64, threshold: u32)
    | Sync(cards: seq<CardState>, name: string)
    | DeviceRead(cards: seq<CardState>)
    | DeviceWrite(cards: seq<CardState>, adjs: seq<Adjustment>, threshold: u32)
    | Notify(cards: seq<CardState>, kind: EventKind, dev: NetDev, devs: seq<NetDev>, hw: nat -> Hw)
    | Load(cards: seq<CardState>, devs: seq<NetDev>, hw: nat -> Hw, clock: nat -> u64)
    | Unload(n: nat)

  function UnloadLocks(n: nat): seq<LockAction> {
    TakeCards() + if n == 0 then [] else UnloadLocks(n - 1)
  }

  ghost function Script(op: Operation): seq<LockAction> {
    match op
    case ClockAccess(c) => TurnLocks(c)
    case Adjust(c, delta, threshold) => AdjTimeLocks(c, delta, threshold)
    case Sync(cards, name) => CycleLocks(cards, name)
    case DeviceRead(cards) =>
      [Acquire(CardsLock), Touch(CardList)] + EachTurnLocks(cards, |cards|) + [Release(CardsLock)]
    case DeviceWrite(cards, adjs, threshold) => WriteLocks(cards, adjs, threshold)
    case Notify(cards, kind, dev, devs, hw) =>
      [Acquire(RtnlLock)] + HandledLocks(cards, kind, dev, devs, hw) + [Release(RtnlLock)]
    case Load(cards, devs, hw, clock) =>
      [Acquire(RtnlLock)] + DiscoverLocks(cards, devs, hw, clock)
      + ScanLocks(Discovered(cards, devs, hw, clock), devs) + [Release(RtnlLock)]
    case Unload(n) => UnloadLocks(n)
  }

  lemma {:induction false} UnloadNeutral(n: nat)
    ensures Neutral({}, UnloadLocks(n))
  {
    hide Neutral;
    NeutralUse({}, CardsLock, CardList);
    NeutralNothing({});
    if n > 0 {
      UnloadNeutral(n - 1);
    }
    NeutralBoth({}, TakeCards(), if n == 0 then [] else UnloadLocks(n - 1));
  }

  lemma LoadNeutral(cards: seq<CardState>, devs: seq<NetDev>, hw: nat -> Hw, clock: nat -> u64)
    ensures Neutral({}, Script(Load(cards, devs, hw, clock)))
  {
    hide Neutral, DiscoverLocks, ScanLocks, Discovered;
    var held := {RtnlLock};
    var a, b := DiscoverLocks(cards, devs, hw, clock), ScanLocks(Discovered(cards, devs, hw, clock), devs);
    DiscoverNeutral(held, cards, devs, hw, clock);
    ScanNeutral(held, Discovered(cards, devs, hw, clock), devs);
    NeutralBoth(held, a, b);
    assert {} + {RtnlLock} == held;
    NeutralUnder({}, RtnlLock, a + b);
    assert [Acquire(RtnlLock)] + (a + b) + [Release(RtnlLock)] == [Acquire(RtnlLock)] + a + b + [Release(RtnlLock)];
  }

  /** Every operation takes locks in the order and gives them all back. */
  lemma OperationNeutral(op: Operation)
    ensures Neutral({}, Script(op))
  {
    hide Neutral, TurnLocks, AdjTimeLocks, CycleLocks, EachTurnLocks, BatchLocks, HandledLocks, DiscoverLocks,
         ScanLocks, UnloadLocks;
    assert {} + {CardsLock} == {CardsLock} && {} + {RtnlLock} == {RtnlLock};
    match op
    case ClockAccess(c) => TurnNeutral({}, c);
    case Adjust(c, delta, threshold) => AdjTimeNeutral({}, c, delta, threshold);
    case Sync(cards, name) => CycleNeutral(cards, name);
    case DeviceRead(cards) =>
      EachTurnNeutral({CardsLock}, cards, |cards|);
      NeutralSection({}, CardsLock, CardList, EachTurnLocks(cards, |cards|));
    case DeviceWrite(cards, adjs, threshold) =>
      NeutralNothing({});
      BatchNeutral({CardsLock}, cards, adjs, threshold);
      NeutralSection({}, CardsLock, CardList, BatchLocks(cards, adjs, threshold));
    case Notify(cards, kind, dev, devs, hw) =>
      EventNeutral({RtnlLock}, cards, kind, dev, devs, hw);
      NeutralUnder({}, RtnlLock, HandledLocks(cards, kind, dev, devs, hw));
    case Load(cards, devs, hw, clock) => LoadNeutral(cards, devs, hw, clock);
    case Unload(n) => UnloadNeutral(n);
  }
}
