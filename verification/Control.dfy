/** The proportional controller and its optional filter (src/bin/tsf_sync_debugfs/control.rs). */
module Control {
  import opened Machine

  // ---------------------------------------------------------------- the filter, as a value

  /** State of the one-dimensional Kalman filter, over exact reals. */
  datatype Filter = Filter(x: real, p: real, q: real, r: real) {
    ghost predicate Valid() {
      p > 0.0 && q > 0.0 && r > 0.0
    }

    /** The gain the next update will use. */
    function Gain(): (k: real)
      requires p + q + r != 0.0
    {
      (p + q) / (p + q + r)
    }
  }

  const INITIAL_FILTER := Filter(0.0, 1.0, 50.0, 4000.0)

  function FilterUpdate(f: Filter, z: real): Filter
    requires f.p + f.q + f.r != 0.0
  {
    var k := f.Gain();
    Filter(f.x + k * (z - f.x), (f.p + f.q) * (1.0 - k), f.q, f.r)
  }

  class KalmanFilter1D {
    var x: real
    var p: real
    const q: real
    const r: real

    ghost function State(): Filter
      reads this
    {
      Filter(x, p, q, r)
    }

    constructor ()
      ensures State() == INITIAL_FILTER
    {
      x, p, q, r := 0.0, 1.0, 50.0, 4000.0;
    }

    /** Absorbs one measurement and returns the new estimate. */
    method Update(z: real) returns (estimate: real)
      requires p + q + r != 0.0
      modifies this
      ensures State() == FilterUpdate(old(State()), z)
      ensures estimate == x
    {
      p := p + q;
      var k := p / (p + r);
      x := x + k * (z - x);
      p := p * (1.0 - k);
      estimate := x;
    }
  }

  // ---------------------------------------------------------------- the controller, as a value

  /** What a controller carries from one cycle to the next. */
  datatype Ctl = Ctl(kpPpm: i64, maxStep: i64, filter: Option<Filter>) {
    ghost predicate Valid() {
      && 0 <= maxStep
      && (filter.Some? ==> filter.value.Valid())
    }
  }

  /** The integer part of a real, rounded toward zero. */
  function TruncReal(x: real): (t: int)
    ensures x >= 0.0 ==> 0.0 <= t as real <= x < t as real + 1.0
    ensures x <= 0.0 ==> t as real - 1.0 < x <= t as real <= 0.0
  {
    if x >= 0.0 then x.Floor else -(-x).Floor
  }

  /** Rust's `as i64` from a float: toward zero, and saturating at the ends of the range. */
  function RealToI64(x: real): i64 {
    var t := TruncReal(x);
    if t < -TWO63 then -TWO63 else if t >= TWO63 then TWO63 - 1 else t
  }

  function RawError(master: u64, follower: u64): i64 {
    WrapS(WrapS(master) - WrapS(follower))
  }

  /** Saturates at the limit, then forces one microsecond where the step vanished but the error did not. */
  function ClampStep(step: i64, maxStep: i64, err: i64): (c: i64)
    requires 0 <= maxStep
    ensures Abs(c) <= if maxStep == 0 then 1 else maxStep
    ensures c == 0 <==> err == 0 && (step == 0 || maxStep == 0)
  {
    var clamped := if step < -maxStep then -maxStep else if step > maxStep then maxStep else step;
    if clamped == 0 && err != 0 then (if err > 0 then 1 else -1) else clamped
  }

  function ProportionalStep(kpPpm: i64, maxStep: i64, err: i64): i64
    requires 0 <= maxStep
  {
    ClampStep(TruncDiv(WrapS(err * kpPpm), 1_000_000), maxStep, err)
  }

  /** One control decision on a raw error: the controller afterwards and the step to take. */
  function Decide(c: Ctl, raw: i64): (d: (Ctl, i64))
    requires c.Valid()
  {
    match c.filter
    case None => (c, ProportionalStep(c.kpPpm, c.maxStep, raw))
    case Some(f) =>
      var g := FilterUpdate(f, raw as real);
      (c.(filter := Some(g)), ProportionalStep(c.kpPpm, c.maxStep, RealToI64(g.x)))
  }

  class Controller {
    const kpPpm: i64
    const maxStep: i64
    const kalman: KalmanFilter1D?

    /** The heap objects an update may change. */
    ghost function Repr(): set<object> {
      if kalman == null then {} else {kalman}
    }

    ghost function State(): Ctl
      reads Repr()
    {
      Ctl(kpPpm, maxStep, if kalman == null then None else Some(kalman.State()))
    }

    constructor (kpPpm: i64, maxStep: i64, useKalman: bool)
      ensures State() == Ctl(kpPpm, maxStep, if useKalman then Some(INITIAL_FILTER) else None)
      ensures fresh(Repr())
    {
      this.kpPpm, this.maxStep := kpPpm, maxStep;
      if useKalman {
        var filter := new KalmanFilter1D();
        kalman := filter;
      } else {
        kalman := null;
      }
    }

    /** The correction to add to the follower, and the raw error it answers. */
    method Apply(master: u64, follower: u64) returns (step: i64, rawErr: i64)
      requires State().Valid()
      modifies Repr()
      ensures rawErr == RawError(master, follower)
      ensures (State(), step) == Decide(old(State()), rawErr)
    {
      rawErr := RawError(master, follower);
      var err := rawErr;
      if kalman != null {
        var estimate := kalman.Update(rawErr as real);
        err := RealToI64(estimate);
      }
      step := ProportionalStep(kpPpm, maxStep, err);
    }
  }

  // ---------------------------------------------------------------- one follower

  /** A follower's controller, and the values written to its TSF so far. */
  datatype Follower = Follower(ctl: Ctl, writes: seq<u64>)

  /** `correct_follower` (threading.rs:15-25): a failed reading changes nothing; the write's
      own result is ignored. */
  function Correct(f: Follower, master: u64, reading: Option<u64>): Follower
    requires f.ctl.Valid()
  {
    match reading
    case None => f
    case Some(tsf) =>
      var (ctl, step) := Decide(f.ctl, RawError(master, tsf));
      Follower(ctl, f.writes + [WrapU(WrapS(tsf) + step)])
  }

  // ---------------------------------------------------------------- facts about single steps

  lemma MulLeReal(a: real, b: real, c: real)
    requires a <= b && c >= 0.0
    ensures a * c <= b * c
  {
  }

  lemma MulLessReal(a: real, b: real, c: real)
    requires a < b && c > 0.0
    ensures a * c < b * c
  {
  }

  /** The contrapositives: order among products is order among the factors. */
  lemma CancelLess(a: real, b: real, c: real)
    requires c >= 0.0 && a * c < b * c
    ensures a < b
  {
  }

  lemma CancelLe(a: real, b: real, c: real)
    requires c > 0.0 && a * c <= b * c
    ensures a <= b
  {
  }

  lemma GainArithmetic(s: real, r: real, k: real)
    requires s > 0.0 && r > 0.0 && k == s / (s + r)
    ensures k * (s + r) == s && 0.0 < k < 1.0
    ensures s * (1.0 - k) == r * k > 0.0
  {
  }

  /** The gain is a proper fraction, and the covariance left behind is the measurement noise
      times the gain just used. */
  lemma GainFacts(f: Filter, z: real)
    requires f.Valid()
    ensures 0.0 < f.Gain() < 1.0
    ensures f.Gain() * (f.p + f.q + f.r) == f.p + f.q
    ensures FilterUpdate(f, z).p == f.r * f.Gain()
    ensures FilterUpdate(f, z).Valid()
  {
    GainArithmetic(f.p + f.q, f.r, f.Gain());
  }

  lemma DecideValid(c: Ctl, raw: i64)
    requires c.Valid()
    ensures Decide(c, raw).0.Valid()
    ensures Decide(c, raw).0.kpPpm == c.kpPpm && Decide(c, raw).0.maxStep == c.maxStep
    ensures Decide(c, raw).0.filter.Some? <==> c.filter.Some?
  {
    hide FilterUpdate, Filter.Gain, ProportionalStep;
    if c.filter.Some? {
      GainFacts(c.filter.value, raw as real);
    }
  }

  lemma CorrectValid(f: Follower, master: u64, reading: Option<u64>)
    requires f.ctl.Valid()
    ensures Correct(f, master, reading).ctl.Valid()
  {
    if reading.Some? {
      DecideValid(f.ctl, RawError(master, reading.value));
    }
  }

  /** What the loop sees next: whatever wraps on the way, the next raw error is this one
      less the step, plus what the master gained on the follower meanwhile. */
  lemma CorrectionClosesLoop(master: u64, follower: u64, step: i64, masterTicks: nat, followerTicks: nat)
    ensures RawError(WrapU(master + masterTicks), WrapU(WrapU(follower + step) + followerTicks))
         == WrapS(RawError(master, follower) - step + masterTicks - followerTicks)
  {
    hide *;
    var m, f := WrapU(master + masterTicks), WrapU(WrapU(follower + step) + followerTicks);
    var a := RawErrorQuotient(master, follower);
    var b := RawErrorQuotient(m, f);
    var c, _ := WrapQuotients(master + masterTicks);
    var d, _ := WrapQuotients(follower + step);
    var e, _ := WrapQuotients(WrapU(follower + step) + followerTicks);
    var next := RawError(master, follower) - step + masterTicks - followerTicks;
    WrapUnique(RawError(m, f), next, a - b - c + d + e);
  }

  /** The raw error is the difference of the two clocks, short of a multiple of 2^64. */
  lemma RawErrorQuotient(master: u64, follower: u64) returns (k: int)
    ensures RawError(master, follower) == master - follower - k * 0x1_0000_0000_0000_0000
  {
    var _, a := WrapQuotients(master);
    var _, b := WrapQuotients(follower);
    var _, c := WrapQuotients(WrapS(master) - WrapS(follower));
    k := a - b + c;
  }
}
