/** The cards of the kernel module (kernel/tsf_ptp.c, kernel/tsf_ptp.h): their hardware clock,
    the operations on one card, and the module's globals. When each hardware access happens is
    an input; a TSF counter is its value at instant 0 plus the microseconds since. */
module Cards {
  import opened Machine

  /** The instants of a read of the hardware and of the write that may follow it. */
  datatype Access = Access(read: nat, write: nat)

  datatype CardState = CardState(wiphy: nat, phyName: string, writable: bool, vif: Option<nat>,
                                 bias: u64, lastOffsetNs: i64, syncs: nat, errors: nat)
  {
    function Tsf(now: nat): u64 {
      WrapU(bias + now)
    }

    /** A driver without `set_tsf` leaves its clock alone. */
    function SetTsf(now: nat, tsf: u64): CardState {
      if writable then this.(bias := WrapU(tsf - now)) else this
    }
  }

  /** A clock that was set runs on from what it was set to. */
  lemma TsfAfterSet(c: CardState, now: nat, tsf: u64, later: nat)
    requires c.writable
    ensures c.SetTsf(now, tsf).Tsf(later) == WrapU(tsf + later - now)
  {
  }

  // ---------------------------------------------------------------- one correction

  /** Microseconds to nanoseconds as the kernel has it, losing what does not fit. */
  function ToNs(us: i64): i64 {
    WrapS(us * 1000)
  }

  function DeltaNs(primary: u64, tsf: u64): i64 {
    ToNs(WrapS(primary - tsf))
  }

  /** `delta < 0 ? -delta : delta`: the least number has no negation and stays negative. */
  function Magnitude(delta: i64): i64 {
    if delta < 0 then WrapS(-(delta as int)) else delta
  }

  lemma LeastMagnitude(delta: i64)
    ensures Magnitude(delta) == if delta == I64_MIN then I64_MIN else Abs(delta)
  {
  }

  predicate Below(delta: i64, threshold: u32) {
    threshold > 0 && Magnitude(delta) < threshold
  }

  /** What Mode B does to one secondary. */
  function SyncCard(c: CardState, primaryTsf: u64, threshold: u32, at: Access): CardState {
    if c.vif.None? then c.(errors := c.errors + 1) else
      var delta := DeltaNs(primaryTsf, c.Tsf(at.read));
      var seen := c.(lastOffsetNs := delta, syncs := c.syncs + 1);
      if Below(delta, threshold) then seen else seen.SetTsf(at.write, primaryTsf)
  }

  /** What `adjtime` does to one card. */
  function AdjustCard(c: CardState, delta: i64, threshold: u32, at: Access): CardState {
    if Below(delta, threshold) || c.vif.None? then c else
      c.SetTsf(at.write, WrapU(c.Tsf(at.read) + TruncDiv(delta, 1000)))
  }

  class Card {
    const wiphy: nat
    const phyName: string
    const writable: bool
    var vif: Option<nat>
    var bias: u64
    var lastOffsetNs: i64
    var syncs: nat
    var errors: nat

    /** A new card has no VIF; its clock shows whatever the hardware holds. The stored name is
        cut to 31 characters. */
    constructor (wiphy: nat, name: string, writable: bool, clock: u64)
      ensures State() == CardState(wiphy, StoredName(name), writable, None, clock, 0, 0, 0)
    {
      this.wiphy, this.phyName, this.writable := wiphy, StoredName(name), writable;
      vif, bias, lastOffsetNs, syncs, errors := None, clock, 0, 0, 0;
    }

    function State(): CardState
      reads this
    {
      CardState(wiphy, phyName, writable, vif, bias, lastOffsetNs, syncs, errors)
    }

    method GetTsf(now: nat) returns (tsf: u64)
      ensures tsf == State().Tsf(now)
    {
      tsf := WrapU(bias + now);
    }

    method SetTsf(now: nat, tsf: u64)
      modifies this
      ensures State() == old(State()).SetTsf(now, tsf)
    {
      if writable {
        bias := WrapU(tsf - now);
      }
    }

    /** One secondary's correction in Mode B, with its locks held. */
    method Sync(primaryTsf: u64, threshold: u32, at: Access) returns (wrote: bool)
      requires vif.Some?
      modifies this
      ensures State() == SyncCard(old(State()), primaryTsf, threshold, at)
      ensures wrote == !Below(DeltaNs(primaryTsf, old(State()).Tsf(at.read)), threshold)
    {
      hide WrapU, WrapS, DeltaNs;
      var tsf := GetTsf(at.read);
      var delta := DeltaNs(primaryTsf, tsf);
      lastOffsetNs := delta;
      wrote := threshold == 0 || Magnitude(delta) >= threshold;
      if wrote {
        SetTsf(at.write, primaryTsf);
      }
      syncs := syncs + 1;
    }
  }

  function StoredName(name: string): string {
    if |name| > 31 then name[..31] else name
  }

  // ---------------------------------------------------------------- the module's globals

  datatype ModuleState = ModuleState(cards: seq<CardState>, applied: nat, skipped: nat,
                                     cycles: nat, failures: nat)

  function States(cards: seq<Card>): (r: seq<CardState>)
    reads cards
    ensures |r| == |cards|
    ensures forall i | 0 <= i < |cards| :: r[i] == cards[i].State()
  {
    if cards == [] then [] else States(cards[..|cards| - 1]) + [cards[|cards| - 1].State()]
  }

  class TsfPtp {
    var cards: seq<Card>
    var applied: nat
    var skipped: nat
    var cycles: nat
    var failures: nat
    var threshold: u32
    var syncPrimary: string

    constructor ()
      ensures cards == [] && View() == ModuleState([], 0, 0, 0, 0)
      ensures threshold == 5000 && syncPrimary == ""
    {
      cards, applied, skipped, cycles, failures := [], 0, 0, 0, 0;
      threshold, syncPrimary := 5000, "";
    }

    /** No card object is listed twice. */
    ghost predicate Valid()
      reads this
    {
      forall i, j | 0 <= i < j < |cards| :: cards[i] != cards[j]
    }

    function View(): ModuleState
      reads this, cards
    {
      ModuleState(States(cards), applied, skipped, cycles, failures)
    }
  }
}
