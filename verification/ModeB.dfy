/** Mode B, the sync loop inside the kernel (kernel/tsf_ptp.c:671-768). */
module ModeB {
  import opened Machine
  import opened Locks
  import opened Cards

  // ---------------------------------------------------------------- the primary

  /** The first card, in list order from `from`, that bears the name. */
  function FirstNamed(cards: seq<CardState>, name: string, from: nat): (r: Option<nat>)
    requires from <= |cards|
    ensures r.Some? ==> from <= r.value < |cards| && cards[r.value].phyName == name
    ensures forall i | from <= i < (if r.Some? then r.value else |cards|) :: cards[i].phyName != name
    decreases |cards| - from
  {
    if from == |cards| then None
    else if cards[from].phyName == name then Some(from)
    else FirstNamed(cards, name, from + 1)
  }

  function Primary(cards: seq<CardState>, name: string): (r: Option<nat>)
    ensures r.Some? ==> r.value < |cards|
  {
    if name != "" then FirstNamed(cards, name, 0)
    else if cards == [] then None else Some(0)
  }

  /** The card at index `p` is the one to follow: the first in the list when no name is set, and
      otherwise the first that bears the name, whatever its interface does. */
  predicate Leads(cards: seq<CardState>, name: string, p: nat) {
    && p < |cards|
    && if name == "" then p == 0
       else cards[p].phyName == name && forall i | 0 <= i < p :: cards[i].phyName != name
  }

  lemma PrimaryLeads(cards: seq<CardState>, name: string)
    ensures forall p: nat :: Leads(cards, name, p) <==> Primary(cards, name) == Some(p)
    ensures Primary(cards, name).Some? ==> Leads(cards, name, Primary(cards, name).value)
  {
    hide FirstNamed;
  }

  method FindPrimaryLocked(m: TsfPtp) returns (r: Option<nat>)
    ensures r == Primary(m.View().cards, m.syncPrimary)
    ensures forall p: nat :: Leads(m.View().cards, m.syncPrimary, p) <==> r == Some(p)
  {
    PrimaryLeads(m.View().cards, m.syncPrimary);
    if m.syncPrimary != "" {
      for i := 0 to |m.cards|
        invariant FirstNamed(m.View().cards, m.syncPrimary, 0) == FirstNamed(m.View().cards, m.syncPrimary, i)
      {
        if m.cards[i].phyName == m.syncPrimary {
          return Some(i);
        }
      }
      return None;
    }
    if m.cards == [] {
      return None;
    }
    return Some(0);
  }

  // ---------------------------------------------------------------- one cycle

  function SyncOne(s: ModuleState, i: nat, primaryTsf: u64, threshold: u32, at: Access): ModuleState
    requires i < |s.cards|
  {
    var c := s.cards[i];
    var next := s.(cards := s.cards[i := SyncCard(c, primaryTsf, threshold, at)]);
    if c.vif.None? then next
    else if Below(DeltaNs(primaryTsf, c.Tsf(at.read)), threshold) then next.(skipped := s.skipped + 1)
    else next.(applied := s.applied + 1)
  }

  /** The first `n` cards of the list done, the primary passed over. */
  function SyncSecondaries(s: ModuleState, p: nat, primaryTsf: u64, threshold: u32, when: nat -> Access,
                           n: nat): (r: ModuleState)
    requires n <= |s.cards|
    ensures |r.cards| == |s.cards|
  {
    if n == 0 then s else
      var before := SyncSecondaries(s, p, primaryTsf, threshold, when, n - 1);
      if n - 1 == p then before else SyncOne(before, n - 1, primaryTsf, threshold, when(n - 1))
  }

  function SyncCycle(s: ModuleState, name: string, threshold: u32, start: nat, when: nat -> Access): (r: ModuleState)
    ensures |r.cards| == |s.cards|
  {
    match Primary(s.cards, name)
    case None => s.(failures := s.failures + 1)
    case Some(p) =>
      if s.cards[p].vif.None? then s.(failures := s.failures + 1) else
        var r := SyncSecondaries(s, p, s.cards[p].Tsf(start), threshold, when, |s.cards|);
        r.(cycles := s.cycles + 1)
  }

  /** The locks one card's turn takes, the hardware being touched only when it has a VIF. */
  function TurnLocks(c: CardState): seq<LockAction> {
    [Acquire(CardLock(c.wiphy)), Touch(Vif(c.wiphy))]
    + (if c.vif.None? then [] else
         [Acquire(WiphyLock(c.wiphy)), Touch(Hardware(c.wiphy)), Release(WiphyLock(c.wiphy))])
    + [Release(CardLock(c.wiphy))]
  }

  function SecondaryLocks(cards: seq<CardState>, p: nat, n: nat): seq<LockAction>
    requires n <= |cards|
  {
    if n == 0 then [] else
      SecondaryLocks(cards, p, n - 1) + if n - 1 == p then [] else TurnLocks(cards[n - 1])
  }

  function CycleLocks(cards: seq<CardState>, name: string): seq<LockAction> {
    [Acquire(CardsLock), Touch(CardList)]
    + (match Primary(cards, name)
       case None => []
       case Some(p) =>
         TurnLocks(cards[p]) + if cards[p].vif.None? then [] else SecondaryLocks(cards, p, |cards|))
    + [Release(CardsLock)]
  }

  lemma Missed(c: CardState, primaryTsf: u64, threshold: u32, at: Access)
    requires c.vif.None?
    ensures SyncCard(c, primaryTsf, threshold, at) == c.(errors := c.errors + 1)
  {
  }

  /** One secondary's turn, under its lock. */
  method SyncTurn(m: TsfPtp, i: nat, primaryTsf: u64, threshold: u32, at: Access)
    returns (ghost locks: seq<LockAction>)
    requires m.Valid() && i < |m.cards|
    modifies m`applied, m`skipped, m.cards[i]
    ensures m.View() == SyncOne(old(m.View()), i, primaryTsf, threshold, at)
    ensures locks == TurnLocks(old(m.cards[i].State()))
  {
    hide WrapU, Below, DeltaNs, SyncCard, States;
    var card := m.cards[i];
    locks := [Acquire(CardLock(card.wiphy)), Touch(Vif(card.wiphy))];
    if card.vif.None? {
      locks := locks + [Release(CardLock(card.wiphy))];
      Missed(card.State(), primaryTsf, threshold, at);
      card.errors := card.errors + 1;
    } else {
      locks := locks + [Acquire(WiphyLock(card.wiphy)), Touch(Hardware(card.wiphy))];
      var wrote := card.Sync(primaryTsf, threshold, at);
      if wrote {
        m.applied := m.applied + 1;
      } else {
        m.skipped := m.skipped + 1;
      }
      locks := locks + [Release(WiphyLock(card.wiphy)), Release(CardLock(card.wiphy))];
    }
    assert m.View().cards == old(m.View().cards)[i := card.State()];
  }

  lemma NoneDone(s: ModuleState, p: nat, primaryTsf: u64, threshold: u32, when: nat -> Access)
    ensures SyncSecondaries(s, p, primaryTsf, threshold, when, 0) == s && SecondaryLocks(s.cards, p, 0) == []
  {
  }

  lemma OneMoreDone(s: ModuleState, p: nat, primaryTsf: u64, threshold: u32, when: nat -> Access, n: nat)
    requires n < |s.cards|
    ensures var before := SyncSecondaries(s, p, primaryTsf, threshold, when, n);
            SyncSecondaries(s, p, primaryTsf, threshold, when, n + 1)
            == if n == p then before else SyncOne(before, n, primaryTsf, threshold, when(n))
    ensures SecondaryLocks(s.cards, p, n + 1)
         == SecondaryLocks(s.cards, p, n) + if n == p then [] else TurnLocks(s.cards[n])
  {
    hide SyncOne, TurnLocks;
  }

  /** Every card but the primary, in list order. */
  method SyncEach(m: TsfPtp, p: nat, primaryTsf: u64, threshold: u32, when: nat -> Access)
    returns (ghost locks: seq<LockAction>)
    requires m.Valid()
    modifies m`applied, m`skipped, m.cards
    ensures m.View() == SyncSecondaries(old(m.View()), p, primaryTsf, threshold, when, |m.cards|)
    ensures locks == SecondaryLocks(old(m.View()).cards, p, |m.cards|)
  {
    hide SyncOne, SyncSecondaries, TurnLocks, SecondaryLocks, States;
    ghost var before := m.View();
    locks := [];
    NoneDone(before, p, primaryTsf, threshold, when);
    for i := 0 to |m.cards|
      invariant m.View() == SyncSecondaries(before, p, primaryTsf, threshold, when, i)
      invariant locks == SecondaryLocks(before.cards, p, i)
      invariant forall j | i <= j < |m.cards| :: m.cards[j].State() == before.cards[j]
    {
      OneMoreDone(before, p, primaryTsf, threshold, when, i);
      if i != p {
        ghost var turn := SyncTurn(m, i, primaryTsf, threshold, when(i));
        locks := locks + turn;
      }
    }
  }

  /** The primary's TSF, if it has a VIF to read it through. */
  method ReadPrimary(m: TsfPtp, p: nat, start: nat) returns (tsf: Option<u64>, ghost locks: seq<LockAction>)
    requires p < |m.cards|
    ensures var c := m.cards[p].State(); tsf == if c.vif.None? then None else Some(c.Tsf(start))
    ensures locks == TurnLocks(m.cards[p].State())
  {
    hide WrapU;
    var primary := m.cards[p];
    locks := [Acquire(CardLock(primary.wiphy)), Touch(Vif(primary.wiphy))];
    if primary.vif.None? {
      locks := locks + [Release(CardLock(primary.wiphy))];
      return None, locks;
    }
    locks := locks + [Acquire(WiphyLock(primary.wiphy)), Touch(Hardware(primary.wiphy))];
    var primaryTsf := primary.GetTsf(start);
    locks := locks + [Release(WiphyLock(primary.wiphy)), Release(CardLock(primary.wiphy))];
    return Some(primaryTsf), locks;
  }

  /** The three ways a cycle goes: no primary, a primary without a VIF, and through. */
  lemma CycleCases(s: ModuleState, name: string, threshold: u32, start: nat, when: nat -> Access)
    ensures var p, failed := Primary(s.cards, name), s.(failures := s.failures + 1);
            var r, locks := SyncCycle(s, name, threshold, start, when), CycleLocks(s.cards, name);
            if p.None? then r == failed && locks == [Acquire(CardsLock), Touch(CardList), Release(CardsLock)]
            else
              var c := s.cards[p.value];
              if c.vif.None? then
                && r == failed
                && locks == [Acquire(CardsLock), Touch(CardList)] + TurnLocks(c) + [Release(CardsLock)]
              else
                var done := SyncSecondaries(s, p.value, c.Tsf(start), threshold, when, |s.cards|);
                && r == done.(cycles := s.cycles + 1)
                && done.cycles == s.cycles && done.failures == s.failures
                && locks == [Acquire(CardsLock), Touch(CardList)] + TurnLocks(c)
                            + SecondaryLocks(s.cards, p.value, |s.cards|) + [Release(CardsLock)]
  {
    hide WrapU, SyncSecondaries, SecondaryLocks, TurnLocks, Primary;
    var p := Primary(s.cards, name);
    if p.Some? {
      CountersKept(s, p.value, s.cards[p.value].Tsf(start), threshold, when, |s.cards|);
    }
  }

  lemma {:induction false} CountersKept(s: ModuleState, p: nat, v: u64, threshold: u32, when: nat -> Access, n: nat)
    requires n <= |s.cards|
    ensures var r := SyncSecondaries(s, p, v, threshold, when, n);
            r.cycles == s.cycles && r.failures == s.failures
  {
    hide SyncCard, Below, DeltaNs;
    if n > 0 {
      CountersKept(s, p, v, threshold, when, n - 1);
    }
  }

  /** One run of the delayed work. */
  method SyncWork(m: TsfPtp, start: nat, when: nat -> Access) returns (ghost locks: seq<LockAction>)
    requires m.Valid()
    modifies m`applied, m`skipped, m`cycles, m`failures, m.cards
    ensures m.View() == SyncCycle(old(m.View()), m.syncPrimary, m.threshold, start, when)
    ensures locks == CycleLocks(old(m.View()).cards, m.syncPrimary)
  {
    hide WrapU, SyncCycle, CycleLocks, SyncSecondaries, SecondaryLocks, TurnLocks, Primary, SyncOne, States;
    CycleCases(m.View(), m.syncPrimary, m.threshold, start, when);
    locks := [Acquire(CardsLock), Touch(CardList)];
    var found := FindPrimaryLocked(m);
    if found.None? {
      locks := locks + [Release(CardsLock)];
      m.failures := m.failures + 1;
      return;
    }
    ghost var reading;
    var primaryTsf;
    primaryTsf, reading := ReadPrimary(m, found.value, start);
    if primaryTsf.None? {
      locks := locks + reading + [Release(CardsLock)];
      m.failures := m.failures + 1;
      return;
    }
    ghost var writing := SyncEach(m, found.value, primaryTsf.value, m.threshold, when);
    locks := locks + reading + writing + [Release(CardsLock)];
    m.cycles := m.cycles + 1;
  }
}
