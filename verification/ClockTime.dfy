/** A card as a PTP clock that is read and set (kernel/tsf_ptp.c:157-205). A timespec stands here
    as the nanoseconds it amounts to. */
module ClockTime {
  import opened Machine
  import opened Locks
  import opened Cards
  import opened ModeB

  /** `div_u64`: the signed nanoseconds are divided as if unsigned. */
  function ToUs(ns: i64): u64 {
    WrapU(ns) / 1000
  }

  /** None for -ENODEV. */
  method GetTime(card: Card, now: nat) returns (ns: Option<i64>, ghost locks: seq<LockAction>)
    ensures var c := card.State(); ns == if c.vif.None? then None else Some(ToNs(WrapS(c.Tsf(now))))
    ensures locks == TurnLocks(card.State())
  {
    hide WrapU, WrapS, ToNs;
    locks := [Acquire(CardLock(card.wiphy)), Touch(Vif(card.wiphy))];
    if card.vif.None? {
      locks := locks + [Release(CardLock(card.wiphy))];
      return None, locks;
    }
    locks := locks + [Acquire(WiphyLock(card.wiphy)), Touch(Hardware(card.wiphy))];
    var tsf := card.GetTsf(now);
    locks := locks + [Release(WiphyLock(card.wiphy)), Release(CardLock(card.wiphy))];
    ns := Some(ToNs(WrapS(tsf)));
  }

  /** False for -ENODEV. */
  method SetTime(card: Card, ns: i64, now: nat) returns (ok: bool, ghost locks: seq<LockAction>)
    modifies card
    ensures ok == old(card.State()).vif.Some?
    ensures card.State() == if ok then old(card.State()).SetTsf(now, ToUs(ns)) else old(card.State())
    ensures locks == TurnLocks(old(card.State()))
  {
    hide WrapU, WrapS, ToUs;
    var tsf := ToUs(ns);
    locks := [Acquire(CardLock(card.wiphy)), Touch(Vif(card.wiphy))];
    if card.vif.None? {
      locks := locks + [Release(CardLock(card.wiphy))];
      return false, locks;
    }
    locks := locks + [Acquire(WiphyLock(card.wiphy)), Touch(Hardware(card.wiphy))];
    card.SetTsf(now, tsf);
    locks := locks + [Release(WiphyLock(card.wiphy)), Release(CardLock(card.wiphy))];
    ok := true;
  }

  /** Setting a clock to the time just read from it changes nothing exactly when the nanoseconds
      fit into 64 unsigned bits. */
  lemma SetToReadExactly(c: CardState, now: nat)
    requires c.writable
    ensures c.SetTsf(now, ToUs(ToNs(WrapS(c.Tsf(now))))).bias == c.bias <==> 1000 * c.Tsf(now) < TWO64
  {
    hide WrapS, WrapU;
    var tsf := c.Tsf(now);
    UsOfNs(tsf);
    var us := ToUs(ToNs(WrapS(tsf)));
    TsfAfterSet(c, now, us, now);
    WrapCongruent(us, us, 0);
    var k, _ := WrapQuotients(c.bias + now);
    WrapCongruent(tsf - now, c.bias, -k);
  }

  lemma UsOfNs(tsf: u64)
    ensures ToUs(ToNs(WrapS(tsf))) == tsf <==> 1000 * tsf < TWO64
    ensures 0 <= ToUs(ToNs(WrapS(tsf))) < TWO64
  {
    hide WrapS, WrapU;
    var _, a := WrapQuotients(tsf);
    var _, b := WrapQuotients(WrapS(tsf) * 1000);
    var x: int := 1000 * (tsf as int);
    WrapCongruent(ToNs(WrapS(tsf)), x, -1000 * a - b);
    var k, _ := WrapQuotients(x);
    assert WrapU(x) == x - k * 0x1_0000_0000_0000_0000;
    if x < TWO64 {
      WrapCongruent(x, x, 0);
      assert x / 1000 == tsf;
    }
  }

  /** Reading back a time that was set loses less than a microsecond, for negative times too,
      exactly from the first whole microsecond of the range on. */
  lemma ReadAfterSet(c: CardState, ns: i64, now: nat)
    requires c.writable
    ensures var r := ToNs(WrapS(c.SetTsf(now, ToUs(ns)).Tsf(now)));
            && r == WrapS(ns - WrapU(ns) % 1000)
            && (ns - 1000 < r <= ns <==> ns >= I64_MIN as int + 192)
  {
    hide WrapS, WrapU;
    var us := ToUs(ns);
    var lost := WrapU(ns) % 1000;
    TsfAfterSet(c, now, us, now);
    WrapCongruent(us, us, 0);
    assert 1000 * us == WrapU(ns) - lost;
    var _, a := WrapQuotients(us);
    var k, _ := WrapQuotients(ns);
    WrapCongruent(WrapS(us) * 1000, ns - lost, -1000 * a - k);
    BelowTheRange(ns);
    if FitsI64(ns - lost) {
      WrapCongruent(ns - lost, ns - lost, 0);
    } else {
      WrapCongruent(ns - lost, ns - lost + TWO64, -1);
    }
  }

  /** Rounding down leaves the range only from the part of a microsecond at its bottom. */
  lemma BelowTheRange(ns: i64)
    ensures FitsI64(ns - WrapU(ns) % 1000) <==> ns >= I64_MIN as int + 192
    ensures ns - WrapU(ns) % 1000 >= I64_MIN as int - 1000
  {
    if ns < 0 {
      WrapCongruent(ns, ns + TWO64, -1);
    } else {
      WrapCongruent(ns, ns, 0);
    }
    assert (ns + TWO64) % 1000 == (ns - I64_MIN as int - 192) % 1000;
  }
}
