/** What every sequence of device events keeps of the card list. */
module CardTableInvariant {
  import opened Machine
  import opened Cards
  import opened CardTable

  datatype World = World(devs: seq<NetDev>, cards: seq<CardState>)

  /** A registration lists its device (down at first) before the notifier hears of it, an
      unregistration unlists it before; the up flag changes before UP and DOWN are sent. `Replay`
      is a registration told to the notifier again. */
  datatype Event =
    | Register(id: nat, wiphy: Option<nat>, clock: u64)
    | Replay(k: nat, clock: u64)
    | Up(k: nat)
    | Down(k: nat)
    | Unregister(k: nat)

  ghost predicate Enabled(w: World, e: Event) {
    match e
    case Register(id, _, _) => forall k | 0 <= k < |w.devs| :: w.devs[k].id != id
    case _ => e.k < |w.devs|
  }

  ghost function Next(w: World, e: Event, hw: nat -> Hw): World
    requires Enabled(w, e)
  {
    match e
    case Register(id, wiphy, clock) =>
      var dev := NetDev(id, wiphy, false);
      var devs := w.devs + [dev];
      World(devs, Handled(w.cards, RegisterEvent, dev, devs, hw, clock))
    case Replay(k, clock) =>
      World(w.devs, Handled(w.cards, RegisterEvent, w.devs[k], w.devs, hw, clock))
    case Up(k) =>
      var dev := w.devs[k].(up := true);
      var devs := w.devs[k := dev];
      World(devs, Handled(w.cards, UpEvent, dev, devs, hw, 0))
    case Down(k) =>
      var dev := w.devs[k].(up := false);
      var devs := w.devs[k := dev];
      World(devs, Handled(w.cards, DownEvent, dev, devs, hw, 0))
    case Unregister(k) =>
      var devs := w.devs[..k] + w.devs[k + 1..];
      World(devs, Handled(w.cards, UnregisterEvent, w.devs[k], devs, hw, 0))
  }

  ghost function Loaded(w: World, hw: nat -> Hw, clock: nat -> u64): World {
    World(w.devs, Scanned(Discovered(w.cards, w.devs, hw, clock), w.devs))
  }

  // ---------------------------------------------------------------- the invariant

  ghost predicate UniqueIds(devs: seq<NetDev>) {
    forall j, k | 0 <= j < k < |devs| :: devs[j].id != devs[k].id
  }

  ghost predicate NoDuplicates(cards: seq<CardState>) {
    forall i, j | 0 <= i < j < |cards| :: cards[i].wiphy != cards[j].wiphy
  }

  ghost predicate Listed(cards: seq<CardState>, wiphy: nat) {
    exists i :: 0 <= i < |cards| && cards[i].wiphy == wiphy
  }

  /** The wiphys that should have a card: readable, and with a device. */
  ghost predicate Wanted(devs: seq<NetDev>, hw: nat -> Hw, wiphy: nat) {
    hw(wiphy).readable && HasDevice(devs, wiphy)
  }

  ghost predicate VifFits(c: CardState, devs: seq<NetDev>) {
    c.vif.Some? ==> exists k :: 0 <= k < |devs| && devs[k] == NetDev(c.vif.value, Some(c.wiphy), true)
  }

  /** No wiphy twice, no card that should not be there, and every VIF one of its card's own
      interfaces, registered and up. */
  ghost predicate Consistent(w: World, hw: nat -> Hw) {
    && UniqueIds(w.devs)
    && NoDuplicates(w.cards)
    && (forall wiphy: nat | Listed(w.cards, wiphy) :: Wanted(w.devs, hw, wiphy))
    && (forall i | 0 <= i < |w.cards| :: VifFits(w.cards[i], w.devs))
  }

  /** No card missing. */
  ghost predicate Complete(w: World, hw: nat -> Hw) {
    forall wiphy: nat | Wanted(w.devs, hw, wiphy) :: Listed(w.cards, wiphy)
  }

  // ---------------------------------------------------------------- the handlers, card by card

  lemma FindsTheCard(cards: seq<CardState>, wiphy: nat)
    requires NoDuplicates(cards)
    ensures forall i | 0 <= i < |cards| :: cards[i].wiphy == wiphy <==> FindByWiphy(cards, wiphy, 0) == Some(i)
    ensures FindByWiphy(cards, wiphy, 0).Some? <==> Listed(cards, wiphy)
  {
  }

  lemma VifUpAt(cards: seq<CardState>, wiphy: nat, dev: nat)
    requires NoDuplicates(cards)
    ensures var r := VifUp(cards, wiphy, dev);
            && |r| == |cards|
            && forall i | 0 <= i < |cards| ::
                 r[i] == if cards[i].wiphy == wiphy && cards[i].vif.None? then cards[i].(vif := Some(dev)) else cards[i]
  {
    hide FindByWiphy;
    FindsTheCard(cards, wiphy);
  }

  lemma VifGoneAt(cards: seq<CardState>, wiphy: nat, dev: nat)
    requires NoDuplicates(cards)
    ensures var r := VifGone(cards, wiphy, dev);
            && |r| == |cards|
            && forall i | 0 <= i < |cards| ::
                 r[i] == if cards[i].wiphy == wiphy && cards[i].vif == Some(dev) then cards[i].(vif := None)
                         else cards[i]
  {
    hide FindByWiphy;
    FindsTheCard(cards, wiphy);
  }

  /** Changing VIFs changes neither which wiphys are listed nor that none is listed twice. */
  lemma SameWiphys(cards: seq<CardState>, r: seq<CardState>)
    requires |r| == |cards| && forall i | 0 <= i < |cards| :: r[i].wiphy == cards[i].wiphy
    ensures forall wiphy: nat :: Listed(r, wiphy) <==> Listed(cards, wiphy)
    ensures NoDuplicates(cards) ==> NoDuplicates(r)
  {
  }

  lemma ProbedAt(cards: seq<CardState>, wiphy: nat, hw: Hw, clock: u64)
    requires NoDuplicates(cards)
    ensures var r := Probed(cards, wiphy, hw, clock);
            && NoDuplicates(r)
            && |cards| <= |r| && r[..|cards|] == cards
            && (forall i | |cards| <= i < |r| :: r[i].vif.None?)
            && (forall x: nat :: Listed(r, x) <==> Listed(cards, x) || (x == wiphy && hw.readable))
  {
    hide FindByWiphy;
    FindsTheCard(cards, wiphy);
    var r := Probed(cards, wiphy, hw, clock);
    if r != cards {
      OneMoreCard(cards, r[|cards|]);
    }
  }

  lemma OneMoreCard(cards: seq<CardState>, c: CardState)
    ensures forall x: nat :: Listed(cards + [c], x) <==> Listed(cards, x) || x == c.wiphy
  {
    var r := cards + [c];
    assert r[|cards|] == c;
    forall x: nat | Listed(cards, x) ensures Listed(r, x) {
      var i :| 0 <= i < |cards| && cards[i].wiphy == x;
      assert r[i].wiphy == x;
    }
  }

  lemma RemovedAt(cards: seq<CardState>, wiphy: nat, devs: seq<NetDev>)
    requires NoDuplicates(cards)
    ensures var r := Removed(cards, wiphy, devs);
            && NoDuplicates(r)
            && (forall c | c in r :: c in cards)
            && (forall x: nat :: Listed(r, x) <==> Listed(cards, x) && (x != wiphy || HasDevice(devs, wiphy)))
  {
    hide FindByWiphy;
    FindsTheCard(cards, wiphy);
    var r := Removed(cards, wiphy, devs);
    if !HasDevice(devs, wiphy) && Listed(cards, wiphy) {
      var at := FindByWiphy(cards, wiphy, 0).value;
      forall x: nat ensures Listed(r, x) <==> Listed(cards, x) && x != wiphy {
        if Listed(cards, x) && x != wiphy {
          var i :| 0 <= i < |cards| && cards[i].wiphy == x;
          assert r[if i < at then i else i - 1].wiphy == x;
        }
        if Listed(r, x) {
          var i :| 0 <= i < |r| && r[i].wiphy == x;
          assert cards[if i < at then i else i + 1].wiphy == x;
        }
      }
    }
  }

  // ---------------------------------------------------------------- every event keeps it

  lemma RegisterKeeps(w: World, e: Event, hw: nat -> Hw)
    requires Consistent(w, hw) && Enabled(w, e) && e.Register?
    ensures Consistent(Next(w, e, hw), hw) && (Complete(w, hw) ==> Complete(Next(w, e, hw), hw))
  {
    var r := Next(w, e, hw);
    MoreDevices(w.devs, r.devs);
    assert r.devs[|w.devs|].wiphy == e.wiphy;
    if e.wiphy.Some? {
      ProbedAt(w.cards, e.wiphy.value, hw(e.wiphy.value), e.clock);
    }
    KeptVifs(w, r);
    forall x: nat ensures HasDevice(r.devs, x) <==> HasDevice(w.devs, x) || e.wiphy == Some(x) {
    }
  }

  /** Devices that stay as they were keep the VIFs that fit them. */
  lemma MoreDevices(devs: seq<NetDev>, more: seq<NetDev>)
    requires |devs| <= |more| && more[..|devs|] == devs
    ensures forall c | VifFits(c, devs) :: VifFits(c, more)
    ensures forall x: nat | HasDevice(devs, x) :: HasDevice(more, x)
  {
  }

  lemma KeptVifs(w: World, r: World)
    requires |w.cards| <= |r.cards| && r.cards[..|w.cards|] == w.cards
    requires forall i | |w.cards| <= i < |r.cards| :: r.cards[i].vif.None?
    requires forall c | VifFits(c, w.devs) :: VifFits(c, r.devs)
    requires forall i | 0 <= i < |w.cards| :: VifFits(w.cards[i], w.devs)
    ensures forall i | 0 <= i < |r.cards| :: VifFits(r.cards[i], r.devs)
  {
  }

  lemma ReplayKeeps(w: World, e: Event, hw: nat -> Hw)
    requires Consistent(w, hw) && Enabled(w, e) && e.Replay?
    ensures Consistent(Next(w, e, hw), hw) && (Complete(w, hw) ==> Complete(Next(w, e, hw), hw))
  {
    var r, dev := Next(w, e, hw), w.devs[e.k];
    if dev.wiphy.Some? {
      ProbedAt(w.cards, dev.wiphy.value, hw(dev.wiphy.value), e.clock);
      KeptVifs(w, r);
    }
  }

  /** Raising or lowering a flag leaves every device where it is. */
  lemma SameDevices(devs: seq<NetDev>, k: nat, up: bool)
    requires k < |devs|
    ensures var r := devs[k := devs[k].(up := up)];
            && (UniqueIds(devs) ==> UniqueIds(r))
            && forall x: nat :: HasDevice(r, x) <==> HasDevice(devs, x)
  {
    var r := devs[k := devs[k].(up := up)];
    forall x: nat ensures HasDevice(r, x) <==> HasDevice(devs, x) {
      if HasDevice(devs, x) {
        var j :| 0 <= j < |devs| && devs[j].wiphy == Some(x);
        assert r[j].wiphy == Some(x);
      }
      if HasDevice(r, x) {
        var j :| 0 <= j < |r| && r[j].wiphy == Some(x);
        assert devs[j].wiphy == Some(x);
      }
    }
  }

  lemma UpKeeps(w: World, e: Event, hw: nat -> Hw)
    requires Consistent(w, hw) && Enabled(w, e) && e.Up?
    ensures Consistent(Next(w, e, hw), hw) && (Complete(w, hw) ==> Complete(Next(w, e, hw), hw))
  {
    hide VifUp;
    var r, dev := Next(w, e, hw), w.devs[e.k];
    SameDevices(w.devs, e.k, true);
    if dev.wiphy.Some? {
      VifUpAt(w.cards, dev.wiphy.value, dev.id);
    }
    SameWiphys(w.cards, r.cards);
    forall i | 0 <= i < |r.cards| ensures VifFits(r.cards[i], r.devs) {
      var c := w.cards[i];
      if c.vif.Some? {
        var k :| 0 <= k < |w.devs| && w.devs[k] == NetDev(c.vif.value, Some(c.wiphy), true);
        assert r.devs[k] == w.devs[k];
      } else {
        assert r.devs[e.k] == NetDev(dev.id, dev.wiphy, true);
      }
    }
  }

  lemma DownKeeps(w: World, e: Event, hw: nat -> Hw)
    requires Consistent(w, hw) && Enabled(w, e) && e.Down?
    ensures Consistent(Next(w, e, hw), hw) && (Complete(w, hw) ==> Complete(Next(w, e, hw), hw))
  {
    hide VifGone;
    var r, dev := Next(w, e, hw), w.devs[e.k];
    SameDevices(w.devs, e.k, false);
    if dev.wiphy.Some? {
      VifGoneAt(w.cards, dev.wiphy.value, dev.id);
    }
    SameWiphys(w.cards, r.cards);
    forall i | 0 <= i < |r.cards| ensures VifFits(r.cards[i], r.devs) {
      var c := w.cards[i];
      if r.cards[i].vif.Some? {
        var k :| 0 <= k < |w.devs| && w.devs[k] == NetDev(c.vif.value, Some(c.wiphy), true);
        assert r.devs[k] == w.devs[k];
      }
    }
  }

  /** Taking a device out of the table. */
  lemma OneDeviceLess(devs: seq<NetDev>, k: nat)
    requires k < |devs| && UniqueIds(devs)
    ensures var r := devs[..k] + devs[k + 1..];
            && UniqueIds(r)
            && (forall j | 0 <= j < |devs| && j != k :: devs[j] in r)
            && (forall d | d in r :: d in devs)
            && forall x: nat :: HasDevice(devs, x) <==> HasDevice(r, x) || devs[k].wiphy == Some(x)
  {
  }

  lemma UnregisterKeeps(w: World, e: Event, hw: nat -> Hw)
    requires Consistent(w, hw) && Enabled(w, e) && e.Unregister?
    ensures Consistent(Next(w, e, hw), hw) && (Complete(w, hw) ==> Complete(Next(w, e, hw), hw))
  {
    hide VifGone, Removed, VifFits, HasDevice, Listed, NoDuplicates, UniqueIds;
    var r, dev := Next(w, e, hw), w.devs[e.k];
    OneDeviceLess(w.devs, e.k);
    if dev.wiphy.Some? {
      var cards := VifGone(w.cards, dev.wiphy.value, dev.id);
      VifGoneAt(w.cards, dev.wiphy.value, dev.id);
      SameWiphys(w.cards, cards);
      RemovedAt(cards, dev.wiphy.value, r.devs);
      forall i | 0 <= i < |cards| ensures VifFits(cards[i], r.devs) {
        StillFits(w.cards[i], cards[i], w.devs, e.k);
      }
      forall i | 0 <= i < |r.cards| ensures VifFits(r.cards[i], r.devs) {
        assert r.cards[i] in cards;
      }
    } else {
      forall i | 0 <= i < |w.cards| ensures VifFits(w.cards[i], r.devs) {
        StillFits(w.cards[i], w.cards[i], w.devs, e.k);
      }
    }
  }

  lemma StillFits(c: CardState, r: CardState, devs: seq<NetDev>, k: nat)
    requires k < |devs| && UniqueIds(devs) && VifFits(c, devs) && r.wiphy == c.wiphy
    requires r.vif == if devs[k].wiphy == Some(c.wiphy) && c.vif == Some(devs[k].id) then None else c.vif
    ensures VifFits(r, devs[..k] + devs[k + 1..])
  {
    if r.vif.Some? {
      var j :| 0 <= j < |devs| && devs[j] == NetDev(c.vif.value, Some(c.wiphy), true);
      OneDeviceLess(devs, k);
      assert devs[j] in devs[..k] + devs[k + 1..];
    }
  }

  /** Every event keeps the table consistent, and complete once it is. */
  lemma EventKeeps(w: World, e: Event, hw: nat -> Hw)
    requires Consistent(w, hw) && Enabled(w, e)
    ensures Consistent(Next(w, e, hw), hw)
    ensures Complete(w, hw) ==> Complete(Next(w, e, hw), hw)
  {
    hide Consistent, Complete;
    match e
    case Register(_, _, _) => RegisterKeeps(w, e, hw);
    case Replay(_, _) => ReplayKeeps(w, e, hw);
    case Up(_) => UpKeeps(w, e, hw);
    case Down(_) => DownKeeps(w, e, hw);
    case Unregister(_) => UnregisterKeeps(w, e, hw);
  }

  // ---------------------------------------------------------------- loading the module

  /** A card whose wiphy has an interface up has a VIF. */
  ghost predicate Lit(cards: seq<CardState>, devs: seq<NetDev>) {
    forall i, k | 0 <= i < |cards| && 0 <= k < |devs| :: Lights(devs[k], cards[i]) ==> cards[i].vif.Some?
  }

  predicate Lights(dev: NetDev, c: CardState) {
    dev.up && dev.wiphy == Some(c.wiphy)
  }

  lemma {:induction false} DiscoveredRight(cards: seq<CardState>, part: seq<NetDev>, devs: seq<NetDev>, hw: nat -> Hw,
                                           clock: nat -> u64)
    requires Consistent(World(devs, cards), hw) && part <= devs
    ensures var r := Discovered(cards, part, hw, clock);
            && Consistent(World(devs, r), hw)
            && forall x: nat | Wanted(part, hw, x) :: Listed(r, x)
  {
    hide Consistent;
    if part != [] {
      var init, dev := part[..|part| - 1], part[|part| - 1];
      DiscoveredRight(cards, init, devs, hw, clock);
      var before := Discovered(cards, init, hw, clock);
      if dev.wiphy.Some? {
        DiscoverOne(before, |part| - 1, devs, hw, clock(dev.wiphy.value));
      }
      LastDevice(part, hw);
    }
  }

  lemma DiscoverOne(cards: seq<CardState>, k: nat, devs: seq<NetDev>, hw: nat -> Hw, clock: u64)
    requires Consistent(World(devs, cards), hw) && k < |devs| && devs[k].wiphy.Some?
    ensures var w := devs[k].wiphy.value;
            var r := Probed(cards, w, hw(w), clock);
            && Consistent(World(devs, r), hw)
            && (forall x: nat | Listed(cards, x) :: Listed(r, x))
            && (hw(w).readable ==> Listed(r, w))
  {
    hide Probed;
    var w := devs[k].wiphy.value;
    ReplayKeeps(World(devs, cards), Replay(k, clock), hw);
    NoDuplicatesIn(World(devs, cards), hw);
    ProbedAt(cards, w, hw(w), clock);
  }

  lemma NoDuplicatesIn(w: World, hw: nat -> Hw)
    requires Consistent(w, hw)
    ensures NoDuplicates(w.cards)
  {
  }

  lemma LastDevice(part: seq<NetDev>, hw: nat -> Hw)
    requires part != []
    ensures var init, dev := part[..|part| - 1], part[|part| - 1];
            forall x: nat | Wanted(part, hw, x) :: Wanted(init, hw, x) || (dev.wiphy == Some(x) && hw(x).readable)
  {
  }

  lemma {:induction false} ScannedRight(cards: seq<CardState>, part: seq<NetDev>, devs: seq<NetDev>, hw: nat -> Hw)
    requires Consistent(World(devs, cards), hw) && part <= devs
    ensures var r := Scanned(cards, part);
            && Consistent(World(devs, r), hw)
            && (forall x: nat | Listed(cards, x) :: Listed(r, x))
            && Lit(r, part)
  {
    hide Consistent, Listed, Lit;
    NothingLit(cards);
    if part != [] {
      var init, dev := part[..|part| - 1], part[|part| - 1];
      ScannedRight(cards, init, devs, hw);
      ScanOne(Scanned(cards, init), part, devs, hw);
    }
  }

  lemma NothingLit(cards: seq<CardState>)
    ensures Lit(cards, [])
  {
  }

  lemma ScanOne(cards: seq<CardState>, part: seq<NetDev>, devs: seq<NetDev>, hw: nat -> Hw)
    requires Consistent(World(devs, cards), hw) && part <= devs && part != []
    requires Lit(cards, part[..|part| - 1])
    ensures var dev := part[|part| - 1];
            var r := if dev.wiphy.None? || !dev.up then cards else VifUp(cards, dev.wiphy.value, dev.id);
            && Consistent(World(devs, r), hw)
            && (forall x: nat | Listed(cards, x) :: Listed(r, x))
            && Lit(r, part)
  {
    hide VifUp;
    var k := |part| - 1;
    var init, dev := part[..k], part[k];
    assert forall j | 0 <= j < k :: init[j] == part[j];
    assert devs[k] == dev;
    if dev.wiphy.Some? && dev.up {
      UpKeeps(World(devs, cards), Up(k), hw);
      assert devs[k := devs[k].(up := true)] == devs;
      VifUpAt(cards, dev.wiphy.value, dev.id);
      SameWiphys(cards, VifUp(cards, dev.wiphy.value, dev.id));
    }
  }

  /** Loading, whatever events came before it was done, completes the table and gives every card
      with an interface up a VIF. */
  lemma LoadCompletes(w: World, hw: nat -> Hw, clock: nat -> u64)
    requires Consistent(w, hw)
    ensures var r := Loaded(w, hw, clock);
            Consistent(r, hw) && Complete(r, hw) && Lit(r.cards, r.devs)
  {
    hide Consistent, Listed, Lit, Wanted, Discovered, Scanned;
    DiscoveredRight(w.cards, w.devs, w.devs, hw, clock);
    ScannedRight(Discovered(w.cards, w.devs, hw, clock), w.devs, w.devs, hw);
  }

  ghost predicate Runnable(w: World, es: seq<Event>, hw: nat -> Hw)
    decreases |es|
  {
    es == [] || (Enabled(w, es[0]) && Runnable(Next(w, es[0], hw), es[1..], hw))
  }

  ghost function Run(w: World, es: seq<Event>, hw: nat -> Hw): World
    requires Runnable(w, es, hw)
    decreases |es|
  {
    if es == [] then w else Run(Next(w, es[0], hw), es[1..], hw)
  }

  lemma {:induction false} RunKeeps(w: World, es: seq<Event>, hw: nat -> Hw)
    requires Consistent(w, hw) && Runnable(w, es, hw)
    ensures Consistent(Run(w, es, hw), hw)
    ensures Complete(w, hw) ==> Complete(Run(w, es, hw), hw)
    decreases |es|
  {
    hide Consistent, Complete, Next;
    if es != [] {
      EventKeeps(w, es[0], hw);
      RunKeeps(Next(w, es[0], hw), es[1..], hw);
    }
  }

  /** The life of the module: an empty list, any events, the load, any events. From the load on,
      the cards are exactly the readable wiphys that have a device, each once, and a VIF is
      always an interface of its card that is registered and up. */
  lemma TableRight(devs: seq<NetDev>, before: seq<Event>, after: seq<Event>, hw: nat -> Hw,
                                      clock: nat -> u64)
    requires UniqueIds(devs)
    requires Runnable(World(devs, []), before, hw)
    requires Runnable(Loaded(Run(World(devs, []), before, hw), hw, clock), after, hw)
    ensures var r := Run(Loaded(Run(World(devs, []), before, hw), hw, clock), after, hw);
            && NoDuplicates(r.cards)
            && (forall wiphy: nat :: Listed(r.cards, wiphy) <==> hw(wiphy).readable && HasDevice(r.devs, wiphy))
            && (forall c | c in r.cards && c.vif.Some? :: NetDev(c.vif.value, Some(c.wiphy), true) in r.devs)
  {
    hide Next, Loaded, Run, Runnable;
    RunKeeps(World(devs, []), before, hw);
    LoadCompletes(Run(World(devs, []), before, hw), hw, clock);
    RunKeeps(Loaded(Run(World(devs, []), before, hw), hw, clock), after, hw);
  }

  // ---------------------------------------------------------------- a VIF whenever there could be one

  /** The event takes a card's VIF away while another of its interfaces is up. */
  ghost predicate Darkens(w: World, e: Event)
    requires Enabled(w, e)
  {
    && (e.Down? || e.Unregister?)
    && exists i, k :: 0 <= i < |w.cards| && 0 <= k < |w.devs| && k != e.k
                      && Lights(w.devs[k], w.cards[i]) && w.cards[i].vif == Some(w.devs[e.k].id)
  }

  lemma DownLit(w: World, e: Event, hw: nat -> Hw)
    requires Consistent(w, hw) && Lit(w.cards, w.devs) && Enabled(w, e) && e.Down?
    ensures Lit(Next(w, e, hw).cards, Next(w, e, hw).devs) <==> !Darkens(w, e)
  {
    hide VifGone;
    var r, dev := Next(w, e, hw), w.devs[e.k];
    if dev.wiphy.Some? {
      VifGoneAt(w.cards, dev.wiphy.value, dev.id);
    }
    if Darkens(w, e) {
      var i, k :| 0 <= i < |w.cards| && 0 <= k < |w.devs| && k != e.k
                  && Lights(w.devs[k], w.cards[i]) && w.cards[i].vif == Some(dev.id);
      OwnVif(w, hw, i, e.k);
      assert Lights(r.devs[k], r.cards[i]) && r.cards[i].vif.None?;
    } else {
      forall i, k | 0 <= i < |r.cards| && 0 <= k < |r.devs| && Lights(r.devs[k], r.cards[i])
        ensures r.cards[i].vif.Some?
      {
        assert Lights(w.devs[k], w.cards[i]);
      }
    }
  }

  /** A card that uses a device is that device's card. */
  lemma OwnVif(w: World, hw: nat -> Hw, i: nat, k: nat)
    requires Consistent(w, hw) && i < |w.cards| && k < |w.devs| && w.cards[i].vif == Some(w.devs[k].id)
    ensures w.devs[k].wiphy == Some(w.cards[i].wiphy)
  {
    assert VifFits(w.cards[i], w.devs);
  }

  lemma UnregisterLit(w: World, e: Event, hw: nat -> Hw)
    requires Consistent(w, hw) && Lit(w.cards, w.devs) && Enabled(w, e) && e.Unregister?
    ensures Lit(Next(w, e, hw).cards, Next(w, e, hw).devs) <==> !Darkens(w, e)
  {
    hide VifGone, Removed, Lit, Consistent, UniqueIds, VifFits, Listed;
    var r, dev := Next(w, e, hw), w.devs[e.k];
    NoDuplicatesIn(w, hw);
    if dev.wiphy.Some? {
      var x := dev.wiphy.value;
      var cards := VifGone(w.cards, x, dev.id);
      VifGoneAt(w.cards, x, dev.id);
      LitWithout(w, cards, e.k, hw);
      RemovalLit(cards, x, r.devs);
    } else {
      LitWithout(w, w.cards, e.k, hw);
    }
  }

  lemma SameLight(dev: NetDev, c: CardState, r: CardState)
    requires r.wiphy == c.wiphy
    ensures Lights(dev, r) <==> Lights(dev, c)
  {
  }

  lemma DarkWithout(w: World, cards: seq<CardState>, at: nat, hw: nat -> Hw)
    requires Consistent(w, hw) && at < |w.devs| && |cards| == |w.cards|
    requires forall i | 0 <= i < |cards| ::
               cards[i] == if w.devs[at].wiphy == Some(w.cards[i].wiphy) && w.cards[i].vif == Some(w.devs[at].id)
                           then w.cards[i].(vif := None) else w.cards[i]
    requires Darkens(w, Unregister(at))
    ensures !Lit(cards, w.devs[..at] + w.devs[at + 1..])
  {
    hide Lights, Consistent;
    var devs := w.devs[..at] + w.devs[at + 1..];
    var i, k :| 0 <= i < |w.cards| && 0 <= k < |w.devs| && k != at
                && Lights(w.devs[k], w.cards[i]) && w.cards[i].vif == Some(w.devs[at].id);
    OwnVif(w, hw, i, at);
    SameLight(w.devs[k], w.cards[i], cards[i]);
    assert Lights(devs[if k < at then k else k - 1], cards[i]) && cards[i].vif.None?;
  }

  lemma LitWithout(w: World, cards: seq<CardState>, at: nat, hw: nat -> Hw)
    requires Consistent(w, hw) && Lit(w.cards, w.devs) && at < |w.devs| && |cards| == |w.cards|
    requires forall i | 0 <= i < |cards| ::
               cards[i] == if w.devs[at].wiphy == Some(w.cards[i].wiphy) && w.cards[i].vif == Some(w.devs[at].id)
                           then w.cards[i].(vif := None) else w.cards[i]
    ensures Lit(cards, w.devs[..at] + w.devs[at + 1..]) <==> !Darkens(w, Unregister(at))
  {
    hide Lights, Consistent;
    if Darkens(w, Unregister(at)) {
      DarkWithout(w, cards, at, hw);
    } else {
      var devs := w.devs[..at] + w.devs[at + 1..];
      forall i, k | 0 <= i < |cards| && 0 <= k < |devs|
        ensures Lights(devs[k], cards[i]) ==> cards[i].vif.Some?
      {
        var j := if k < at then k else k + 1;
        SameLight(w.devs[j], w.cards[i], cards[i]);
        assert Lights(w.devs[j], w.cards[i]) ==> w.cards[i].vif.Some?;
      }
    }
  }

  /** A card taken out had no interface left to light it. */
  lemma RemovalLit(cards: seq<CardState>, wiphy: nat, devs: seq<NetDev>)
    requires NoDuplicates(cards)
    ensures Lit(Removed(cards, wiphy, devs), devs) <==> Lit(cards, devs)
  {
    hide FindByWiphy, Lit;
    FindsTheCard(cards, wiphy);
    var found := FindByWiphy(cards, wiphy, 0);
    if !HasDevice(devs, wiphy) && found.Some? {
      if Lit(cards, devs) {
        DarkCardOut(cards, found.value, devs);
      }
      if Lit(cards[..found.value] + cards[found.value + 1..], devs) {
        DarkCardIn(cards, found.value, devs);
      }
    }
  }

  lemma DarkCardOut(cards: seq<CardState>, at: nat, devs: seq<NetDev>)
    requires at < |cards| && Lit(cards, devs)
    ensures Lit(cards[..at] + cards[at + 1..], devs)
  {
  }

  lemma DarkCardIn(cards: seq<CardState>, at: nat, devs: seq<NetDev>)
    requires at < |cards| && !HasDevice(devs, cards[at].wiphy) && Lit(cards[..at] + cards[at + 1..], devs)
    ensures Lit(cards, devs)
  {
    var r := cards[..at] + cards[at + 1..];
    forall i, k | 0 <= i < |cards| && 0 <= k < |devs| && Lights(devs[k], cards[i])
      ensures cards[i].vif.Some?
    {
      assert devs[k].wiphy == Some(cards[i].wiphy);
      assert i != at;
      assert r[if i < at then i else i - 1] == cards[i];
    }
  }

  lemma RegisterLit(w: World, e: Event, hw: nat -> Hw)
    requires Consistent(w, hw) && Complete(w, hw) && Lit(w.cards, w.devs) && Enabled(w, e)
    requires e.Register? || e.Replay?
    ensures Lit(Next(w, e, hw).cards, Next(w, e, hw).devs)
  {
    hide FindByWiphy;
    var r := Next(w, e, hw);
    var wiphy := if e.Register? then e.wiphy else w.devs[e.k].wiphy;
    if wiphy.Some? {
      FindsTheCard(w.cards, wiphy.value);
      forall i, k | 0 <= i < |r.cards| && 0 <= k < |r.devs| && Lights(r.devs[k], r.cards[i])
        ensures r.cards[i].vif.Some?
      {
        assert k < |w.devs| && Lights(w.devs[k], r.cards[i]);
        assert HasDevice(w.devs, r.cards[i].wiphy);
        assert hw(r.cards[i].wiphy).readable ==> Listed(w.cards, r.cards[i].wiphy);
      }
    }
  }

  lemma UpLit(w: World, e: Event, hw: nat -> Hw)
    requires Consistent(w, hw) && Lit(w.cards, w.devs) && Enabled(w, e) && e.Up?
    ensures Lit(Next(w, e, hw).cards, Next(w, e, hw).devs)
  {
  }

  /** The notifier does not fall back to another interface: a card with an interface up keeps
      having a VIF through every event except, exactly, the loss of the one it uses while
      another is up. */
  lemma LitExactly(w: World, e: Event, hw: nat -> Hw)
    requires Consistent(w, hw) && Complete(w, hw) && Lit(w.cards, w.devs) && Enabled(w, e)
    ensures Lit(Next(w, e, hw).cards, Next(w, e, hw).devs) <==> !Darkens(w, e)
  {
    hide Consistent, Complete, Lit, Next;
    match e
    case Register(_, _, _) => RegisterLit(w, e, hw);
    case Replay(_, _) => RegisterLit(w, e, hw);
    case Up(_) => UpLit(w, e, hw);
    case Down(_) => DownLit(w, e, hw);
    case Unregister(_) => UnregisterLit(w, e, hw);
  }

  /** Two interfaces of one card come up and the first goes down: the card has no VIF, though
      the second is up. */
  lemma DarkExample(hw: nat -> Hw)
    requires hw(0).readable
    ensures var es := [Register(0, Some(0), 0), Register(1, Some(0), 0), Up(0), Up(1), Down(0)];
            Runnable(World([], []), es, hw)
            && var r := Run(World([], []), es, hw);
               r.devs[1].up && r.devs[1].wiphy == Some(0) && |r.cards| == 1 && r.cards[0].vif.None?
  {
  }
}
