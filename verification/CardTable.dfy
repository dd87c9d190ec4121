/** The card list as an index over the net devices (kernel/tsf_ptp.c:290-374, 395-653, 976-1007).
    Registering a PTP clock and allocating memory succeed. */
module CardTable {
  import opened Machine
  import opened Locks
  import opened Cards

  /** A net device: its id stands for the VIF embedded in it; `wiphy` is None when the device is
      not a wireless one. */
  datatype NetDev = NetDev(id: nat, wiphy: Option<nat>, up: bool)

  /** What a wiphy's driver offers. */
  datatype Hw = Hw(name: string, readable: bool, writable: bool)

  // ---------------------------------------------------------------- one card

  function FindByWiphy(cards: seq<CardState>, wiphy: nat, from: nat): (r: Option<nat>)
    requires from <= |cards|
    ensures r.Some? ==> from <= r.value < |cards| && cards[r.value].wiphy == wiphy
    ensures forall i | from <= i < (if r.Some? then r.value else |cards|) :: cards[i].wiphy != wiphy
    decreases |cards| - from
  {
    if from == |cards| then None
    else if cards[from].wiphy == wiphy then Some(from)
    else FindByWiphy(cards, wiphy, from + 1)
  }

  /** A new card joins at the end of the list, if its driver can read the TSF and no card has
      this wiphy yet. */
  function Probed(cards: seq<CardState>, wiphy: nat, hw: Hw, clock: u64): seq<CardState> {
    if !hw.readable || FindByWiphy(cards, wiphy, 0).Some? then cards
    else cards + [CardState(wiphy, StoredName(hw.name), hw.writable, None, clock, 0, 0, 0)]
  }

  function WithVif(cards: seq<CardState>, i: nat, vif: Option<nat>): seq<CardState>
    requires i < |cards|
  {
    cards[i := cards[i].(vif := vif)]
  }

  /** An interface came up: it becomes its card's VIF unless the card has one. */
  function VifUp(cards: seq<CardState>, wiphy: nat, dev: nat): seq<CardState> {
    var found := FindByWiphy(cards, wiphy, 0);
    if found.Some? && cards[found.value].vif.None? then WithVif(cards, found.value, Some(dev)) else cards
  }

  /** An interface went: its card, if it used it, has no VIF now. */
  function VifGone(cards: seq<CardState>, wiphy: nat, dev: nat): seq<CardState> {
    var found := FindByWiphy(cards, wiphy, 0);
    if found.Some? && cards[found.value].vif == Some(dev) then WithVif(cards, found.value, None) else cards
  }

  ghost predicate HasDevice(devs: seq<NetDev>, wiphy: nat) {
    exists k :: 0 <= k < |devs| && devs[k].wiphy == Some(wiphy)
  }

  /** The card of a wiphy that no device refers to any more is taken out. */
  ghost function Removed(cards: seq<CardState>, wiphy: nat, devs: seq<NetDev>): seq<CardState> {
    var found := FindByWiphy(cards, wiphy, 0);
    if HasDevice(devs, wiphy) || found.None? then cards
    else cards[..found.value] + cards[found.value + 1..]
  }

  // ---------------------------------------------------------------- the notifier

  datatype EventKind = RegisterEvent | UpEvent | DownEvent | UnregisterEvent

  /** What the notifier makes of an event about `dev`, the device table being as it is by then. */
  ghost function Handled(cards: seq<CardState>, kind: EventKind, dev: NetDev, devs: seq<NetDev>, hw: nat -> Hw,
                         clock: u64): seq<CardState>
  {
    if dev.wiphy.None? then cards else
      var w := dev.wiphy.value;
      match kind
      case RegisterEvent => Probed(cards, w, hw(w), clock)
      case UpEvent => VifUp(cards, w, dev.id)
      case DownEvent => VifGone(cards, w, dev.id)
      case UnregisterEvent => Removed(VifGone(cards, w, dev.id), w, devs)
  }

  function TakeCards(): seq<LockAction> {
    [Acquire(CardsLock), Touch(CardList), Release(CardsLock)]
  }

  function ProbeLocks(cards: seq<CardState>, wiphy: nat, hw: Hw): seq<LockAction> {
    if !hw.readable then [] else if FindByWiphy(cards, wiphy, 0).Some? then TakeCards() else TakeCards() + TakeCards()
  }

  function VifLocks(cards: seq<CardState>, wiphy: nat): seq<LockAction> {
    [Acquire(CardsLock), Touch(CardList)]
    + (if FindByWiphy(cards, wiphy, 0).None? then [] else
         [Acquire(CardLock(wiphy)), Touch(Vif(wiphy)), Release(CardLock(wiphy))])
    + [Release(CardsLock)]
  }

  ghost function HandledLocks(cards: seq<CardState>, kind: EventKind, dev: NetDev, devs: seq<NetDev>,
                              hw: nat -> Hw): seq<LockAction> {
    if dev.wiphy.None? then [] else
      var w := dev.wiphy.value;
      match kind
      case RegisterEvent =>
        TakeCards() + if FindByWiphy(cards, w, 0).Some? then [] else ProbeLocks(cards, w, hw(w))
      case UpEvent => VifLocks(cards, w)
      case DownEvent => VifLocks(cards, w)
      case UnregisterEvent => VifLocks(cards, w) + if HasDevice(devs, w) then [] else TakeCards()
  }

  method FindCardByWiphyLocked(m: TsfPtp, wiphy: nat) returns (r: Option<nat>)
    ensures r == FindByWiphy(m.View().cards, wiphy, 0)
  {
    for i := 0 to |m.cards|
      invariant FindByWiphy(m.View().cards, wiphy, 0) == FindByWiphy(m.View().cards, wiphy, i)
    {
      if m.cards[i].wiphy == wiphy {
        return Some(i);
      }
    }
    return None;
  }

  /** True for 0: a PTP clock was registered. */
  method Probe(m: TsfPtp, wiphy: nat, hw: Hw, clock: u64) returns (ok: bool, ghost locks: seq<LockAction>)
    requires m.Valid()
    modifies m`cards
    ensures m.Valid() && |m.cards| == |old(m.cards)| + if ok then 1 else 0
    ensures m.cards[..|old(m.cards)|] == old(m.cards) && forall c | c in m.cards[|old(m.cards)|..] :: fresh(c)
    ensures m.View() == old(m.View()).(cards := Probed(old(m.View()).cards, wiphy, hw, clock))
    ensures locks == ProbeLocks(old(m.View()).cards, wiphy, hw)
  {
    hide States, FindByWiphy;
    locks := [];
    if !hw.readable {
      return false, locks;
    }
    locks := TakeCards();
    var existing := FindCardByWiphyLocked(m, wiphy);
    if existing.Some? {
      return false, locks;
    }
    var card := new Card(wiphy, hw.name, hw.writable, clock);
    locks := locks + TakeCards();
    ghost var before := m.View().cards;
    m.cards := m.cards + [card];
    assert m.View().cards == before + [card.State()];
    return true, locks;
  }

  method TryHotplugProbe(m: TsfPtp, wiphy: nat, hw: Hw, clock: u64) returns (ghost locks: seq<LockAction>)
    requires m.Valid()
    modifies m`cards
    ensures m.Valid()
    ensures m.View() == old(m.View()).(cards := Probed(old(m.View()).cards, wiphy, hw, clock))
    ensures locks == TakeCards() + if FindByWiphy(old(m.View()).cards, wiphy, 0).Some? then []
                                   else ProbeLocks(old(m.View()).cards, wiphy, hw)
  {
    locks := TakeCards();
    var found := FindCardByWiphyLocked(m, wiphy);
    if found.Some? {
      return;
    }
    ghost var probing;
    var ok;
    ok, probing := Probe(m, wiphy, hw, clock);
    locks := locks + probing;
  }

  method TryHotplugRemove(m: TsfPtp, wiphy: nat, devs: seq<NetDev>) returns (ghost locks: seq<LockAction>)
    requires m.Valid()
    modifies m`cards
    ensures m.Valid()
    ensures m.View() == old(m.View()).(cards := Removed(old(m.View()).cards, wiphy, devs))
    ensures locks == if HasDevice(devs, wiphy) then [] else TakeCards()
  {
    hide States, FindByWiphy;
    for k := 0 to |devs|
      invariant forall j | 0 <= j < k :: devs[j].wiphy != Some(wiphy)
    {
      if devs[k].wiphy == Some(wiphy) {
        return [];
      }
    }
    locks := TakeCards();
    var found := FindCardByWiphyLocked(m, wiphy);
    if found.Some? {
      var i := found.value;
      ghost var before := m.View().cards;
      m.cards := m.cards[..i] + m.cards[i + 1..];
      assert m.View().cards == before[..i] + before[i + 1..];
    }
  }

  /** NETDEV_UP, and what the scan at load does for an interface that is up already. */
  method CaptureVif(m: TsfPtp, wiphy: nat, dev: nat) returns (ghost locks: seq<LockAction>)
    requires m.Valid()
    modifies m.cards
    ensures m.View() == old(m.View()).(cards := VifUp(old(m.View()).cards, wiphy, dev))
    ensures locks == VifLocks(old(m.View()).cards, wiphy)
  {
    hide States;
    locks := [Acquire(CardsLock), Touch(CardList)];
    var found := FindCardByWiphyLocked(m, wiphy);
    if found.Some? {
      var card := m.cards[found.value];
      locks := locks + [Acquire(CardLock(wiphy)), Touch(Vif(wiphy)), Release(CardLock(wiphy))];
      if card.vif.None? {
        card.vif := Some(dev);
        assert m.View().cards == old(m.View()).cards[found.value := card.State()];
      }
    }
    locks := locks + [Release(CardsLock)];
  }

  /** NETDEV_DOWN, and the first half of NETDEV_UNREGISTER. */
  method ReleaseVif(m: TsfPtp, wiphy: nat, dev: nat) returns (ghost locks: seq<LockAction>)
    requires m.Valid()
    modifies m.cards
    ensures m.View() == old(m.View()).(cards := VifGone(old(m.View()).cards, wiphy, dev))
    ensures locks == VifLocks(old(m.View()).cards, wiphy)
  {
    hide States;
    locks := [Acquire(CardsLock), Touch(CardList)];
    var found := FindCardByWiphyLocked(m, wiphy);
    if found.Some? {
      var card := m.cards[found.value];
      locks := locks + [Acquire(CardLock(wiphy)), Touch(Vif(wiphy)), Release(CardLock(wiphy))];
      if card.vif == Some(dev) {
        card.vif := None;
        assert m.View().cards == old(m.View()).cards[found.value := card.State()];
      }
    }
    locks := locks + [Release(CardsLock)];
  }

  method NetdevEvent(m: TsfPtp, kind: EventKind, dev: NetDev, devs: seq<NetDev>, hw: nat -> Hw, clock: u64)
    returns (ghost locks: seq<LockAction>)
    requires m.Valid()
    modifies m`cards, m.cards
    ensures m.Valid()
    ensures m.View() == old(m.View()).(cards := Handled(old(m.View()).cards, kind, dev, devs, hw, clock))
    ensures locks == HandledLocks(old(m.View()).cards, kind, dev, devs, hw)
  {
    hide States, Probed, VifUp, VifGone, Removed, VifLocks, ProbeLocks;
    locks := [];
    if dev.wiphy.None? {
      return;
    }
    var wiphy := dev.wiphy.value;
    match kind {
      case RegisterEvent =>
        locks := TryHotplugProbe(m, wiphy, hw(wiphy), clock);
      case UpEvent =>
        locks := CaptureVif(m, wiphy, dev.id);
      case DownEvent =>
        locks := ReleaseVif(m, wiphy, dev.id);
      case UnregisterEvent =>
        ghost var releasing := ReleaseVif(m, wiphy, dev.id);
        ghost var removing := TryHotplugRemove(m, wiphy, devs);
        locks := releasing + removing;
    }
  }

  // ---------------------------------------------------------------- loading the module

  function Discovered(cards: seq<CardState>, devs: seq<NetDev>, hw: nat -> Hw, clock: nat -> u64): seq<CardState> {
    if devs == [] then cards else
      var before, dev := Discovered(cards, devs[..|devs| - 1], hw, clock), devs[|devs| - 1];
      if dev.wiphy.None? then before else Probed(before, dev.wiphy.value, hw(dev.wiphy.value), clock(dev.wiphy.value))
  }

  function Scanned(cards: seq<CardState>, devs: seq<NetDev>): seq<CardState> {
    if devs == [] then cards else
      var before, dev := Scanned(cards, devs[..|devs| - 1]), devs[|devs| - 1];
      if dev.wiphy.None? || !dev.up then before else VifUp(before, dev.wiphy.value, dev.id)
  }

  function DiscoverLocks(cards: seq<CardState>, devs: seq<NetDev>, hw: nat -> Hw, clock: nat -> u64): seq<LockAction> {
    if devs == [] then [] else
      var init, dev := devs[..|devs| - 1], devs[|devs| - 1];
      DiscoverLocks(cards, init, hw, clock)
      + if dev.wiphy.None? then []
        else ProbeLocks(Discovered(cards, init, hw, clock), dev.wiphy.value, hw(dev.wiphy.value))
  }

  function ScanLocks(cards: seq<CardState>, devs: seq<NetDev>): seq<LockAction> {
    if devs == [] then [] else
      var init, dev := devs[..|devs| - 1], devs[|devs| - 1];
      ScanLocks(cards, init)
      + if dev.wiphy.None? || !dev.up then [] else VifLocks(Scanned(cards, init), dev.wiphy.value)
  }

  method DiscoverFromNetdevs(m: TsfPtp, devs: seq<NetDev>, hw: nat -> Hw, clock: nat -> u64)
    returns (count: nat, ghost locks: seq<LockAction>)
    requires m.Valid()
    modifies m`cards
    ensures m.Valid() && forall c | c in m.cards :: c in old(m.cards) || fresh(c)
    ensures m.View() == old(m.View()).(cards := Discovered(old(m.View()).cards, devs, hw, clock))
    ensures count == |m.cards| - |old(m.cards)|
    ensures locks == DiscoverLocks(old(m.View()).cards, devs, hw, clock)
  {
    hide States, Probed, ProbeLocks;
    ghost var before := m.View();
    count, locks := 0, [];
    for k := 0 to |devs|
      invariant m.Valid() && forall c | c in m.cards :: c in old(m.cards) || fresh(c)
      invariant m.View() == before.(cards := Discovered(before.cards, devs[..k], hw, clock))
      invariant count == |m.cards| - |old(m.cards)|
      invariant locks == DiscoverLocks(before.cards, devs[..k], hw, clock)
    {
      assert devs[..k + 1][..k] == devs[..k];
      if devs[k].wiphy.None? {
        continue;
      }
      var w := devs[k].wiphy.value;
      ghost var probing;
      var ok;
      ghost var listed := m.cards;
      ok, probing := Probe(m, w, hw(w), clock(w));
      assert m.cards == listed + m.cards[|listed|..];
      if ok {
        count := count + 1;
      }
      locks := locks + probing;
    }
    assert devs[..|devs|] == devs;
  }

  method ScanExistingVifs(m: TsfPtp, devs: seq<NetDev>) returns (ghost locks: seq<LockAction>)
    requires m.Valid()
    modifies m.cards
    ensures m.View() == old(m.View()).(cards := Scanned(old(m.View()).cards, devs))
    ensures locks == ScanLocks(old(m.View()).cards, devs)
  {
    hide States, VifUp, VifLocks;
    ghost var before := m.View();
    locks := [];
    for k := 0 to |devs|
      invariant m.View() == before.(cards := Scanned(before.cards, devs[..k]))
      invariant locks == ScanLocks(before.cards, devs[..k])
    {
      assert devs[..k + 1][..k] == devs[..k];
      if devs[k].wiphy.None? || !devs[k].up {
        continue;
      }
      ghost var capturing := CaptureVif(m, devs[k].wiphy.value, devs[k].id);
      locks := locks + capturing;
    }
    assert devs[..|devs|] == devs;
  }

  /** The part of the module's init that fills the table, under the rtnl lock. */
  method Init(m: TsfPtp, devs: seq<NetDev>, hw: nat -> Hw, clock: nat -> u64)
    returns (count: nat, ghost locks: seq<LockAction>)
    requires m.Valid()
    modifies m`cards, m.cards
    ensures m.Valid()
    ensures var found := Discovered(old(m.View()).cards, devs, hw, clock);
            && m.View() == old(m.View()).(cards := Scanned(found, devs))
            && count == |found| - |old(m.cards)|
            && locks == [Acquire(RtnlLock)] + DiscoverLocks(old(m.View()).cards, devs, hw, clock)
                        + ScanLocks(found, devs) + [Release(RtnlLock)]
  {
    hide States, Discovered, Scanned, DiscoverLocks, ScanLocks;
    ghost var discovering;
    count, discovering := DiscoverFromNetdevs(m, devs, hw, clock);
    assert forall i | 0 <= i < |m.cards| :: m.cards[i] in m.cards;
    ghost var scanning := ScanExistingVifs(m, devs);
    locks := [Acquire(RtnlLock)] + discovering + scanning + [Release(RtnlLock)];
  }
}
