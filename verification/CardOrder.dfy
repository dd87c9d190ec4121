/** The order of the card list, which decides the default primary and every card's index, and the
    state of each card in it, through every run of device events. */
module CardOrder {
  import opened Machine
  import opened Cards
  import opened ModeB
  import opened CardTable
  import opened CardTableInvariant

  // ---------------------------------------------------------------- what an event makes of each card

  /** The VIF of a card after an event: a device that comes up is taken if there is none, and the
      device in use is dropped when it goes. */
  ghost function VifAfter(c: CardState, w: World, e: Event): Option<nat>
    requires Enabled(w, e)
  {
    if e.Register? || e.Replay? || w.devs[e.k].wiphy != Some(c.wiphy) then c.vif
    else if e.Up? then (if c.vif.None? then Some(w.devs[e.k].id) else c.vif)
    else if c.vif == Some(w.devs[e.k].id) then None else c.vif
  }

  /** A card as it enters the list: the name cut to 31 characters, what its driver can do, the clock
      it is found with, nothing counted yet. */
  predicate Fresh(c: CardState, wiphy: nat, hw: Hw, clock: u64) {
    && c.wiphy == wiphy && c.vif.None?
    && c.phyName <= hw.name && |c.phyName| == (if |hw.name| < 31 then |hw.name| else 31)
    && c.writable == hw.writable && c.bias == clock
    && c.lastOffsetNs == 0 && c.syncs == 0 && c.errors == 0
  }

  /** The card an event brings: that of its device's wiphy. */
  ghost predicate Brought(c: CardState, w: World, e: Event, hw: nat -> Hw)
    requires Enabled(w, e)
  {
    && (e.Register? || e.Replay?)
    && var wiphy := if e.Register? then e.wiphy else w.devs[e.k].wiphy;
       wiphy.Some? && Fresh(c, wiphy.value, hw(wiphy.value), e.clock)
  }

  /** `r` came of `was`: first the cards at the indices `kept`, in their order and changed in nothing
      but the VIF, then cards of wiphys that were not listed. */
  ghost predicate CameOf(r: seq<CardState>, was: seq<CardState>, kept: seq<nat>) {
    && |kept| <= |r|
    && (forall i, j | 0 <= i < j < |kept| :: kept[i] < kept[j])
    && (forall i | 0 <= i < |kept| :: kept[i] < |was| && r[i] == was[kept[i]].(vif := r[i].vif))
    && (forall i | |kept| <= i < |r| :: !Listed(was, r[i].wiphy))
  }

  function Upto(n: nat): (s: seq<nat>)
    ensures |s| == n && forall i | 0 <= i < n :: s[i] == i
  {
    seq(n, i requires 0 <= i < n => i)
  }

  function AllBut(n: nat, at: nat): (s: seq<nat>)
    requires at < n
    ensures |s| == n - 1 && forall i | 0 <= i < n - 1 :: s[i] == if i < at then i else i + 1
  {
    seq(n - 1, i requires 0 <= i < n - 1 => if i < at then i else i + 1)
  }

  lemma SameCameOf(cards: seq<CardState>)
    ensures CameOf(cards, cards, Upto(|cards|))
    ensures forall i | 0 <= i < |cards| :: i in Upto(|cards|)
  {
    forall i | 0 <= i < |cards| ensures i in Upto(|cards|) {
      assert Upto(|cards|)[i] == i;
    }
  }

  lemma ProbedCameOf(cards: seq<CardState>, wiphy: nat, hw: Hw, clock: u64)
    requires NoDuplicates(cards)
    ensures var r := Probed(cards, wiphy, hw, clock);
            && CameOf(r, cards, Upto(|cards|)) && |cards| <= |r| && r[..|cards|] == cards
            && |r| <= |cards| + 1 && (|r| == |cards| + 1 ==> Fresh(r[|cards|], wiphy, hw, clock))
  {
    hide FindByWiphy;
    FindsTheCard(cards, wiphy);
  }

  lemma TakenOut(cards: seq<CardState>, at: nat)
    requires at < |cards|
    ensures CameOf(cards[..at] + cards[at + 1..], cards, AllBut(|cards|, at))
    ensures forall i | 0 <= i < |cards| && i != at :: i in AllBut(|cards|, at)
  {
    forall i | 0 <= i < |cards| && i != at ensures i in AllBut(|cards|, at) {
      assert AllBut(|cards|, at)[if i < at then i else i - 1] == i;
    }
  }

  lemma RemovedCameOf(cards: seq<CardState>, wiphy: nat, devs: seq<NetDev>) returns (kept: seq<nat>)
    requires NoDuplicates(cards)
    ensures var r := Removed(cards, wiphy, devs);
            && CameOf(r, cards, kept) && |r| == |kept|
            && (forall i | 0 <= i < |kept| :: r[i] == cards[kept[i]])
            && (forall i | 0 <= i < |cards| && i !in kept :: cards[i].wiphy == wiphy && !HasDevice(devs, wiphy))
  {
    hide FindByWiphy, HasDevice, CameOf;
    var found := FindByWiphy(cards, wiphy, 0);
    if HasDevice(devs, wiphy) || found.None? {
      kept := Upto(|cards|);
      SameCameOf(cards);
    } else {
      kept := AllBut(|cards|, found.value);
      TakenOut(cards, found.value);
    }
  }

  /** The list `r` after an event: in order the cards that stay, each with the VIF the event leaves
      it and otherwise unchanged; only a card whose wiphy has no device left goes; at most one card
      comes, at the end, as its driver and hardware are found. */
  ghost predicate Becomes(w: World, e: Event, hw: nat -> Hw, kept: seq<nat>)
    requires Enabled(w, e)
  {
    var r := Next(w, e, hw);
    && CameOf(r.cards, w.cards, kept)
    && (forall i | 0 <= i < |kept| :: r.cards[i].vif == VifAfter(w.cards[kept[i]], w, e))
    && (forall i | 0 <= i < |w.cards| && i !in kept :: !HasDevice(r.devs, w.cards[i].wiphy))
    && |r.cards| <= |kept| + 1
    && (forall i | |kept| <= i < |r.cards| :: Brought(r.cards[i], w, e, hw))
  }

  /** Every event does just that. */
  lemma EventBecomes(w: World, e: Event, hw: nat -> Hw) returns (kept: seq<nat>)
    requires Consistent(w, hw) && Enabled(w, e)
    ensures Becomes(w, e, hw, kept)
  {
    hide Consistent, Becomes;
    NoDuplicatesIn(w, hw);
    match e {
      case Register(_, _, _) => kept := RegisterBecomes(w, e, hw);
      case Replay(_, _) => kept := RegisterBecomes(w, e, hw);
      case Up(_) => kept := FlagBecomes(w, e, hw);
      case Down(_) => kept := FlagBecomes(w, e, hw);
      case Unregister(_) => kept := UnregisterBecomes(w, e, hw);
    }
  }

  lemma RegisterBecomes(w: World, e: Event, hw: nat -> Hw) returns (kept: seq<nat>)
    requires NoDuplicates(w.cards) && Enabled(w, e) && (e.Register? || e.Replay?)
    ensures Becomes(w, e, hw, kept)
  {
    hide Probed, HasDevice, Listed, Fresh, CameOf, Upto, NoDuplicates;
    kept := Upto(|w.cards|);
    SameCameOf(w.cards);
    var wiphy := if e.Register? then e.wiphy else w.devs[e.k].wiphy;
    if wiphy.Some? {
      ProbedCameOf(w.cards, wiphy.value, hw(wiphy.value), e.clock);
      assert forall i | 0 <= i < |w.cards| :: Next(w, e, hw).cards[i] == w.cards[i];
    }
  }

  /** Changing VIFs alone. */
  lemma VifsCameOf(r: seq<CardState>, cards: seq<CardState>)
    requires |r| == |cards| && forall i | 0 <= i < |cards| :: r[i] == cards[i].(vif := r[i].vif)
    ensures CameOf(r, cards, Upto(|cards|))
  {
  }

  lemma FlagBecomes(w: World, e: Event, hw: nat -> Hw) returns (kept: seq<nat>)
    requires NoDuplicates(w.cards) && Enabled(w, e) && (e.Up? || e.Down?)
    ensures Becomes(w, e, hw, kept)
  {
    hide VifUp, VifGone, HasDevice, Listed, CameOf, NoDuplicates;
    kept := Upto(|w.cards|);
    SameCameOf(w.cards);
    var dev := w.devs[e.k];
    if dev.wiphy.Some? {
      VifUpAt(w.cards, dev.wiphy.value, dev.id);
      VifGoneAt(w.cards, dev.wiphy.value, dev.id);
      VifsCameOf(Next(w, e, hw).cards, w.cards);
    }
  }

  lemma UnregisterBecomes(w: World, e: Event, hw: nat -> Hw) returns (kept: seq<nat>)
    requires NoDuplicates(w.cards) && Enabled(w, e) && e.Unregister?
    ensures Becomes(w, e, hw, kept)
  {
    hide VifGone, Removed, HasDevice, Listed, NoDuplicates;
    var dev, devs := w.devs[e.k], w.devs[..e.k] + w.devs[e.k + 1..];
    kept := Upto(|w.cards|);
    SameCameOf(w.cards);
    if dev.wiphy.Some? {
      VifGoneAt(w.cards, dev.wiphy.value, dev.id);
      var cards := VifGone(w.cards, dev.wiphy.value, dev.id);
      SameWiphys(w.cards, cards);
      kept := RemovedCameOf(cards, dev.wiphy.value, devs);
    }
  }

  // ---------------------------------------------------------------- order over runs

  /** `x` stands before `y` in the list. */
  ghost predicate Before(cards: seq<CardState>, x: nat, y: nat) {
    exists i, j :: 0 <= i < j < |cards| && cards[i].wiphy == x && cards[j].wiphy == y
  }

  ghost predicate StaysListed(w: World, es: seq<Event>, hw: nat -> Hw, x: nat)
    requires Runnable(w, es, hw)
    decreases |es|
  {
    Listed(w.cards, x) && (es == [] || StaysListed(Next(w, es[0], hw), es[1..], hw, x))
  }

  lemma KeptWiphy(r: seq<CardState>, was: seq<CardState>, kept: seq<nat>, x: nat) returns (i: nat)
    requires CameOf(r, was, kept) && Listed(was, x) && Listed(r, x)
    ensures i < |kept| && r[i].wiphy == x && was[kept[i]].wiphy == x
  {
    i :| 0 <= i < |r| && r[i].wiphy == x;
  }

  lemma KeptWereListed(r: seq<CardState>, was: seq<CardState>, kept: seq<nat>)
    requires CameOf(r, was, kept)
    ensures forall i | 0 <= i < |kept| :: Listed(was, r[i].wiphy)
  {
  }

  /** Cards that stay keep their order, and come before those that are new. */
  lemma CameInOrder(r: seq<CardState>, was: seq<CardState>, kept: seq<nat>, x: nat, y: nat)
    requires CameOf(r, was, kept) && NoDuplicates(was) && NoDuplicates(r)
    requires Listed(was, x) && Listed(r, x) && Listed(r, y)
    ensures if Listed(was, y) then Before(was, x, y) <==> Before(r, x, y) else Before(r, x, y)
  {
    var i := KeptWiphy(r, was, kept, x);
    if Listed(was, y) {
      var j := KeptWiphy(r, was, kept, y);
      OneBefore(r, x, y, i, j);
      OneBefore(was, x, y, kept[i], kept[j]);
      assert i < j ==> kept[i] < kept[j];
      assert j < i ==> kept[j] < kept[i];
    } else {
      var j :| 0 <= j < |r| && r[j].wiphy == y;
      KeptWereListed(r, was, kept);
      OneBefore(r, x, y, i, j);
    }
  }

  lemma OneBefore(cards: seq<CardState>, x: nat, y: nat, i: nat, j: nat)
    requires NoDuplicates(cards) && i < |cards| && j < |cards| && cards[i].wiphy == x && cards[j].wiphy == y
    ensures Before(cards, x, y) <==> i < j
  {
  }

  /** Through one event. */
  lemma EventOrder(w: World, e: Event, hw: nat -> Hw, x: nat, y: nat)
    requires Consistent(w, hw) && Enabled(w, e)
    requires Listed(w.cards, x) && Listed(Next(w, e, hw).cards, x) && Listed(Next(w, e, hw).cards, y)
    ensures var r := Next(w, e, hw).cards;
            if Listed(w.cards, y) then Before(w.cards, x, y) <==> Before(r, x, y) else Before(r, x, y)
  {
    hide Consistent, Next, Before, Listed, CameOf;
    var kept := EventBecomes(w, e, hw);
    EventKeeps(w, e, hw);
    NoDuplicatesIn(w, hw);
    NoDuplicatesIn(Next(w, e, hw), hw);
    CameInOrder(Next(w, e, hw).cards, w.cards, kept, x, y);
  }

  /** Through any run: cards that are never taken off the list keep their order. */
  lemma {:induction false} RunOrder(w: World, es: seq<Event>, hw: nat -> Hw, x: nat, y: nat)
    requires Consistent(w, hw) && Runnable(w, es, hw)
    requires StaysListed(w, es, hw, x) && StaysListed(w, es, hw, y)
    ensures Before(w.cards, x, y) <==> Before(Run(w, es, hw).cards, x, y)
    decreases |es|
  {
    hide Consistent, Next, Before, Listed;
    if es != [] {
      var t := Next(w, es[0], hw);
      EventKeeps(w, es[0], hw);
      RunOrder(t, es[1..], hw, x, y);
      ListedAtStart(t, es[1..], hw, x);
      ListedAtStart(t, es[1..], hw, y);
      EventOrder(w, es[0], hw, x, y);
    }
  }

  lemma ListedAtStart(w: World, es: seq<Event>, hw: nat -> Hw, x: nat)
    requires Runnable(w, es, hw) && StaysListed(w, es, hw, x)
    ensures Listed(w.cards, x)
  {
  }

  /** And they come before every card that was off the list at some point of the run. */
  lemma {:induction false} LatecomersLast(w: World, es: seq<Event>, hw: nat -> Hw, x: nat, y: nat)
    requires Consistent(w, hw) && Runnable(w, es, hw) && StaysListed(w, es, hw, x)
    requires Listed(Run(w, es, hw).cards, y) && !StaysListed(w, es, hw, y)
    ensures Before(Run(w, es, hw).cards, x, y)
    decreases |es|
  {
    hide Consistent, Next, Before, Listed;
    if es != [] {
      var t := Next(w, es[0], hw);
      EventKeeps(w, es[0], hw);
      if StaysListed(t, es[1..], hw, y) {
        ListedAtStart(t, es[1..], hw, x);
        ListedAtStart(t, es[1..], hw, y);
        EventOrder(w, es[0], hw, x, y);
        RunOrder(t, es[1..], hw, x, y);
      } else {
        LatecomersLast(t, es[1..], hw, x, y);
      }
    }
  }

  /** So with no name set the card that leads is one of those listed longest: if any card stayed
      listed through a run, the leader at its end did, and it stood before all others that did. */
  lemma DefaultPrimaryIsOldest(w: World, es: seq<Event>, hw: nat -> Hw, x: nat)
    requires Consistent(w, hw) && Runnable(w, es, hw) && StaysListed(w, es, hw, x)
    ensures var r := Run(w, es, hw).cards;
            && Leads(r, "", 0)
            && StaysListed(w, es, hw, r[0].wiphy)
            && (r[0].wiphy == x || Before(w.cards, r[0].wiphy, x))
  {
    hide Consistent, Next, Run;
    var r := Run(w, es, hw).cards;
    RunKeeps(w, es, hw);
    NoDuplicatesIn(Run(w, es, hw), hw);
    ListedAtEnd(w, es, hw, x);
    var j :| 0 <= j < |r| && r[j].wiphy == x;
    assert Listed(r, r[0].wiphy);
    NobodyBeforeFirst(r, x);
    if !StaysListed(w, es, hw, r[0].wiphy) {
      LatecomersLast(w, es, hw, x, r[0].wiphy);
    }
    if j > 0 {
      OneBefore(r, r[0].wiphy, x, 0, j);
      RunOrder(w, es, hw, r[0].wiphy, x);
    }
  }

  lemma NobodyBeforeFirst(cards: seq<CardState>, x: nat)
    requires NoDuplicates(cards) && cards != []
    ensures !Before(cards, x, cards[0].wiphy)
  {
  }

  lemma {:induction false} ListedAtEnd(w: World, es: seq<Event>, hw: nat -> Hw, x: nat)
    requires Runnable(w, es, hw) && StaysListed(w, es, hw, x)
    ensures Listed(Run(w, es, hw).cards, x)
    decreases |es|
  {
    hide Next, Listed;
    if es != [] {
      ListedAtEnd(Next(w, es[0], hw), es[1..], hw, x);
    }
  }

  // ---------------------------------------------------------------- the order the load leaves

  /** The first device of `x` in the table comes before any of `y`. */
  ghost predicate Precedes(devs: seq<NetDev>, x: nat, y: nat) {
    exists k :: 0 <= k < |devs| && devs[k].wiphy == Some(x) && forall j | 0 <= j <= k :: devs[j].wiphy != Some(y)
  }

  /** Discovery leaves the cards that were listed where they are, and adds the others behind them in
      the order of their first devices, each as its driver and hardware are found. */
  lemma {:induction false} DiscoveryOrder(cards: seq<CardState>, devs: seq<NetDev>, hw: nat -> Hw, clock: nat -> u64)
    requires NoDuplicates(cards)
    ensures var r := Discovered(cards, devs, hw, clock);
            && NoDuplicates(r) && |cards| <= |r| && r[..|cards|] == cards
            && (forall x: nat | HasDevice(devs, x) && hw(x).readable :: Listed(r, x))
            && (forall i | |cards| <= i < |r| ::
                  HasDevice(devs, r[i].wiphy) && Fresh(r[i], r[i].wiphy, hw(r[i].wiphy), clock(r[i].wiphy)))
            && (forall i, j | |cards| <= i < j < |r| :: Precedes(devs, r[i].wiphy, r[j].wiphy))
  {
    hide Probed, NoDuplicates, Listed, Fresh, Precedes, HasDevice;
    NoDeviceYet();
    if devs != [] {
      var init, dev := devs[..|devs| - 1], devs[|devs| - 1];
      var before := Discovered(cards, init, hw, clock);
      DiscoveryOrder(cards, init, hw, clock);
      OneMoreDevice(devs);
      if dev.wiphy.Some? {
        DiscoverLast(cards, before, devs, hw, clock);
      }
    }
  }

  lemma NoDeviceYet()
    ensures forall x: nat :: !HasDevice([], x)
  {
  }

  lemma OneMoreDevice(devs: seq<NetDev>)
    requires devs != []
    ensures var init, dev := devs[..|devs| - 1], devs[|devs| - 1];
            && (forall x: nat :: HasDevice(devs, x) <==> HasDevice(init, x) || dev.wiphy == Some(x))
            && (forall x: nat, y: nat | Precedes(init, x, y) :: Precedes(devs, x, y))
            && (forall x: nat, y: nat | HasDevice(init, x) && !HasDevice(init, y) :: Precedes(devs, x, y))
  {
    var init, dev := devs[..|devs| - 1], devs[|devs| - 1];
    assert devs == init + [dev];
    forall x: nat, y: nat | HasDevice(init, x) && !HasDevice(init, y) ensures Precedes(devs, x, y) {
      var k :| 0 <= k < |init| && init[k].wiphy == Some(x);
      assert devs[k].wiphy == Some(x);
    }
  }

  lemma DiscoverLast(cards: seq<CardState>, before: seq<CardState>, devs: seq<NetDev>, hw: nat -> Hw, clock: nat -> u64)
    requires devs != [] && devs[|devs| - 1].wiphy.Some? && NoDuplicates(before)
    requires |cards| <= |before| && before[..|cards|] == cards
    requires forall x: nat | HasDevice(devs[..|devs| - 1], x) && hw(x).readable :: Listed(before, x)
    requires forall i | |cards| <= i < |before| :: HasDevice(devs[..|devs| - 1], before[i].wiphy)
    ensures var w := devs[|devs| - 1].wiphy.value;
            var r := Probed(before, w, hw(w), clock(w));
            && NoDuplicates(r) && |before| <= |r| <= |before| + 1 && r[..|before|] == before
            && (forall x: nat :: Listed(r, x) <==> Listed(before, x) || (x == w && hw(w).readable))
            && (|r| == |before| + 1 ==>
                  && Fresh(r[|before|], w, hw(w), clock(w)) && r[|before|].wiphy == w
                  && forall i | |cards| <= i < |before| :: Precedes(devs, before[i].wiphy, w))
  {
    hide NoDuplicates, Listed, Precedes, HasDevice, FindByWiphy;
    var w := devs[|devs| - 1].wiphy.value;
    ProbedAt(before, w, hw(w), clock(w));
    ProbedCameOf(before, w, hw(w), clock(w));
    OneMoreDevice(devs);
    FindsTheCard(before, w);
  }

  /** The device at `k` is the first in the table that is up and the card's own. */
  ghost predicate FirstLight(devs: seq<NetDev>, k: nat, c: CardState) {
    k < |devs| && Lights(devs[k], c) && forall j | 0 <= j < k :: !Lights(devs[j], c)
  }

  /** The scan changes nothing but VIFs: a card that has none gets the first of its devices that is
      up, if any is. */
  lemma {:induction false} ScanCaptures(cards: seq<CardState>, devs: seq<NetDev>)
    requires NoDuplicates(cards)
    ensures var r := Scanned(cards, devs);
            && |r| == |cards|
            && forall i | 0 <= i < |cards| :: Captured(r[i], cards[i], devs)
  {
    hide VifUp, NoDuplicates, Captured;
    NoneCaptured(cards);
    if devs != [] {
      var init, dev := devs[..|devs| - 1], devs[|devs| - 1];
      var before := Scanned(cards, init);
      ScanCaptures(cards, init);
      forall i | 0 <= i < |cards| ensures before[i].wiphy == cards[i].wiphy {
        CapturedWiphy(before[i], cards[i], init);
      }
      SameWiphys(cards, before);
      if dev.wiphy.Some? {
        VifUpAt(before, dev.wiphy.value, dev.id);
      }
      forall i | 0 <= i < |cards| ensures Captured(Scanned(cards, devs)[i], cards[i], devs) {
        CaptureLast(before[i], cards[i], devs);
      }
    }
  }

  ghost predicate Captured(r: CardState, was: CardState, devs: seq<NetDev>) {
    && r == was.(vif := r.vif)
    && (was.vif.Some? ==> r.vif == was.vif)
    && (was.vif.None? ==>
          && (r.vif.None? <==> forall k | 0 <= k < |devs| :: !Lights(devs[k], was))
          && (r.vif.Some? ==> exists k: nat :: FirstLight(devs, k, was) && devs[k].id == r.vif.value))
  }

  lemma NoneCaptured(cards: seq<CardState>)
    ensures forall c | c in cards :: Captured(c, c, [])
  {
  }

  lemma CapturedWiphy(r: CardState, was: CardState, devs: seq<NetDev>)
    requires Captured(r, was, devs)
    ensures r.wiphy == was.wiphy
  {
  }

  lemma CaptureLast(before: CardState, was: CardState, devs: seq<NetDev>)
    requires devs != [] && Captured(before, was, devs[..|devs| - 1])
    ensures var dev := devs[|devs| - 1];
            Captured(if Lights(dev, was) && before.vif.None? then before.(vif := Some(dev.id)) else before, was, devs)
  {
    var n := |devs| - 1;
    var init, dev := devs[..n], devs[n];
    if before.vif.Some? && was.vif.None? {
      var k: nat :| FirstLight(init, k, was) && init[k].id == before.vif.value;
      assert FirstLight(devs, k, was) && devs[k].id == before.vif.value;
    } else if was.vif.None? && Lights(dev, was) {
      assert FirstLight(devs, n, was);
    }
  }
}
