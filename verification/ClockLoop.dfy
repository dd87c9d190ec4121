/** The loop on the clocks themselves: a follower corrected round after round against a master,
    both counters ticking in between, is the recurrence of ClosedLoop. */
module ClockLoop {
  import opened Machine
  import opened Control
  import opened ClosedLoop
  import opened FilterEnergy
  import opened FreeSteps
  import opened KalmanLoop
  import opened RunSingle

  /** A follower, and what the next readings of the master and of it will show. */
  datatype Clocks = Clocks(f: Follower, master: u64, tsf: u64)

  /** Ticks until the next readings: of the master since it was read, of the follower since it
      was written. */
  datatype Elapsed = Elapsed(master: nat, follower: nat)

  /** One round: correct, and let both clocks run on. */
  function Tick(s: Clocks, t: Elapsed): (r: Clocks)
    requires s.f.ctl.Valid()
    ensures r.f.ctl.Valid()
  {
    CorrectValid(s.f, s.master, Some(s.tsf));
    var f := Correct(s.f, s.master, Some(s.tsf));
    Clocks(f, WrapU(s.master + t.master), WrapU(f.writes[|f.writes| - 1] + t.follower))
  }

  function Ticking(s: Clocks, ts: seq<Elapsed>): (r: Clocks)
    requires s.f.ctl.Valid()
    ensures r.f.ctl.Valid()
  {
    if ts == [] then s else Tick(Ticking(s, ts[..|ts| - 1]), ts[|ts| - 1])
  }

  /** The controller and the raw error it is about to see. */
  function LoopOf(s: Clocks): Loop {
    Loop(s.f.ctl, RawError(s.master, s.tsf))
  }

  /** What the master gains on the follower, round by round. */
  function Drifts(ts: seq<Elapsed>): (r: seq<int>)
    ensures |r| == |ts| && forall k | 0 <= k < |ts| :: r[k] == ts[k].master - ts[k].follower
  {
    seq(|ts|, k requires 0 <= k < |ts| => ts[k].master - ts[k].follower)
  }

  // ---------------------------------------------------------------- rounds are cycles

  lemma TickIsCycle(s: Clocks, t: Elapsed)
    requires s.f.ctl.Valid()
    ensures LoopOf(Tick(s, t)) == Cycle(LoopOf(s), t.master - t.follower)
  {
    hide WrapU, WrapS, RawError, Decide;
    var step := Decide(s.f.ctl, RawError(s.master, s.tsf)).1;
    SameWrite(s.tsf, step);
    CorrectionClosesLoop(s.master, s.tsf, step, t.master, t.follower);
  }

  lemma SameWrite(tsf: u64, step: i64)
    ensures WrapU(WrapS(tsf) + step) == WrapU(tsf + step)
  {
    hide WrapU, WrapS;
    var _, k := WrapQuotients(tsf);
    WrapCongruent(WrapS(tsf) + step, tsf + step, -k);
  }

  /** Whatever the controller and whatever wraps: the errors that `Correct` meets round after
      round are those of the recurrence. */
  lemma {:induction false} TickingIsRun(s: Clocks, ts: seq<Elapsed>)
    requires s.f.ctl.Valid()
    ensures LoopOf(Ticking(s, ts)) == ClosedLoop.Run(LoopOf(s), Drifts(ts))
  {
    hide Tick, RawError, Cycle;
    if ts != [] {
      var init, last := ts[..|ts| - 1], ts[|ts| - 1];
      TickingIsRun(s, init);
      TickIsCycle(Ticking(s, init), last);
      assert Drifts(ts) == Drifts(init) + [last.master - last.follower];
      RunExtends(LoopOf(s), Drifts(init), last.master - last.follower);
    }
  }

  // ---------------------------------------------------------------- what becomes of real followers

  /** The single-threaded loop reads, in each of its rounds, what the clocks show: the master,
      and follower `i`. */
  ghost predicate Observes(rounds: seq<Round>, i: nat, s: Clocks, ts: seq<Elapsed>)
    requires s.f.ctl.Valid()
  {
    && |rounds| == |ts|
    && forall k | 0 <= k < |rounds| ::
         && i < |rounds[k].readings|
         && rounds[k].master == Some(Ticking(s, ts[..k]).master)
         && rounds[k].readings[i] == Some(Ticking(s, ts[..k]).tsf)
  }

  lemma ObservesPrefix(rounds: seq<Round>, i: nat, s: Clocks, ts: seq<Elapsed>)
    requires s.f.ctl.Valid() && Observes(rounds, i, s, ts) && rounds != []
    ensures Observes(rounds[..|rounds| - 1], i, s, ts[..|ts| - 1])
  {
    hide Ticking;
    var n := |rounds| - 1;
    forall k | 0 <= k < n ensures ts[..n][..k] == ts[..k] {
    }
  }

  /** Its follower `i` is then the follower of those clocks, whatever the other followers do. */
  lemma {:induction false} SingleRunTicks(fs: seq<Follower>, rounds: seq<Round>, i: nat, s: Clocks, ts: seq<Elapsed>)
    requires AllValid(fs) && Fits(rounds, |fs|) && i < |fs| && fs[i] == s.f
    requires Observes(rounds, i, s, ts)
    ensures SingleRun(fs, rounds)[i] == Ticking(s, ts).f
    decreases |rounds|
  {
    hide Correct, Observes;
    SameLength(rounds, i, s, ts);
    if rounds != [] {
      var n := |rounds| - 1;
      ObservesPrefix(rounds, i, s, ts);
      SingleRunTicks(fs, rounds[..n], i, s, ts[..n]);
      LastRound(rounds, i, s, ts);
    }
  }

  lemma LastRound(rounds: seq<Round>, i: nat, s: Clocks, ts: seq<Elapsed>)
    requires s.f.ctl.Valid() && Observes(rounds, i, s, ts) && rounds != []
    ensures var n := |rounds| - 1;
            && |ts| == n + 1 && i < |rounds[n].readings|
            && rounds[n].master == Some(Ticking(s, ts[..n]).master)
            && rounds[n].readings[i] == Some(Ticking(s, ts[..n]).tsf)
  {
  }

  /** So the single-threaded loop brings a real follower that does not drift, the delays of its
      own corrections counted, level with the master, a microsecond a round at least, and leaves
      it there. */
  lemma {:induction false} SingleRunConverges(fs: seq<Follower>, rounds: seq<Round>, i: nat, s: Clocks,
                                             ts: seq<Elapsed>)
    requires AllValid(fs) && Fits(rounds, |fs|) && i < |fs| && fs[i] == s.f
    requires Observes(rounds, i, s, ts)
    requires forall k | 0 <= k < |ts| :: ts[k].master == ts[k].follower
    requires s.f.ctl.filter.None? && Contracting(s.f.ctl.kpPpm, s.f.ctl.maxStep)
    requires Harmless(s.f.ctl.kpPpm, s.f.ctl.maxStep, RawError(s.master, s.tsf))
    ensures var t, e := Ticking(s, ts), Abs(RawError(s.master, s.tsf));
            && SingleRun(fs, rounds)[i] == t.f
            && Abs(RawError(t.master, t.tsf)) <= (if |rounds| < e then e - |rounds| else 0)
  {
    hide SingleRun, Ticking, ClosedLoop.Run, Static, RawError, Harmless, Contracting, Observes, Fits;
    SingleRunTicks(fs, rounds, i, s, ts);
    TickingIsRun(s, ts);
    NoDriftIsStatic(LoopOf(s), Drifts(ts));
    Converges(LoopOf(s), |ts|);
    SameLength(rounds, i, s, ts);
  }

  lemma SameLength(rounds: seq<Round>, i: nat, s: Clocks, ts: seq<Elapsed>)
    requires s.f.ctl.Valid() && Observes(rounds, i, s, ts)
    ensures |rounds| == |ts|
  {
  }

  /** And holds one whose clock drifts, at unit gain, to a round's worth of drift. */
  lemma {:induction false} SingleRunContainsDrift(fs: seq<Follower>, rounds: seq<Round>, i: nat, s: Clocks,
                                                 ts: seq<Elapsed>, bound: nat)
    requires AllValid(fs) && Fits(rounds, |fs|) && i < |fs| && fs[i] == s.f
    requires Observes(rounds, i, s, ts)
    requires DriftWithin(Drifts(ts), bound)
    requires s.f.ctl.filter.None? && s.f.ctl.kpPpm == UNIT_GAIN && bound < s.f.ctl.maxStep
    requires InRange(UNIT_GAIN, RawError(s.master, s.tsf)) && InRange(UNIT_GAIN, bound)
    ensures var t := Ticking(s, ts);
            && SingleRun(fs, rounds)[i] == t.f
            && (SettlingCycles(RawError(s.master, s.tsf), s.f.ctl.maxStep, bound) <= |rounds|
                ==> Abs(RawError(t.master, t.tsf)) <= bound)
  {
    hide SingleRun, Ticking, ClosedLoop.Run, RawError, InRange, Observes, SettlingCycles, Fits;
    SingleRunTicks(fs, rounds, i, s, ts);
    TickingIsRun(s, ts);
    DriftIsContained(LoopOf(s), Drifts(ts), bound);
    SameLength(rounds, i, s, ts);
  }

  /** And tracks one with its filter on, at any gain and drift its envelope allows, with the error
      sinking under the level of KalmanLoop and no step clamped. */
  lemma {:induction false} SingleRunTracks(fs: seq<Follower>, rounds: seq<Round>, i: nat, s: Clocks,
                                           ts: seq<Elapsed>, b: Envelope)
    requires AllValid(fs) && Fits(rounds, |fs|) && i < |fs| && fs[i] == s.f
    requires Observes(rounds, i, s, ts) && WellStarted(LoopOf(s), b) && DriftWithin(Drifts(ts), b.drift)
    ensures var t, k := Ticking(s, ts), s.f.ctl.filter.value.Gain();
            var err := RawError(t.master, t.tsf) as real;
            && SingleRun(fs, rounds)[i] == t.f
            && Unclamped(LoopOf(t))
            && b.margin * (err * err) <= Level(k, Cost(s.f.ctl.kpPpm, b.drift), b.ceiling, |rounds|) <= b.ceiling
  {
    hide SingleRun, Ticking, ClosedLoop.Run, RawError, Observes, Fits, Level, Unclamped, Tame, Cost, WellStarted,
         Filter.Gain;
    WellStartedControl(LoopOf(s), b);
    SingleRunTicks(fs, rounds, i, s, ts);
    TickingIsRun(s, ts);
    FilteredLoopTracks(LoopOf(s), b, Drifts(ts));
    SameLength(rounds, i, s, ts);
  }

  // ---------------------------------------------------------------- clocks of one rate

  /** When a round reads the master, reads the follower and writes it. */
  datatype Instants = Instants(master: nat, read: nat, write: nat)

  /** Every access of a round falls within `lag` of its read of the master. */
  ghost predicate Timely(ats: seq<Instants>, lag: nat) {
    forall k | 0 <= k < |ats| :: ats[k].master <= ats[k].read <= ats[k].write <= ats[k].master + lag
  }

  /** What two clocks that both count microseconds gain between the accesses of a round and those
      of the next. */
  predicate OneRate(a: Instants, b: Instants, t: Elapsed) {
    a.master + t.master == b.master && a.write + t.follower == b.read
  }

  ghost predicate SameRate(ats: seq<Instants>, ts: seq<Elapsed>) {
    && |ats| == |ts| + 1
    && forall k | 0 <= k < |ts| :: OneRate(ats[k], ats[k + 1], ts[k])
  }

  /** Such clocks still drift in the loop's eyes, by the change in how late its accesses come:
      never by more than the lag. */
  lemma SameRateDrift(ats: seq<Instants>, ts: seq<Elapsed>, lag: nat)
    requires Timely(ats, lag) && SameRate(ats, ts)
    ensures DriftWithin(Drifts(ts), lag)
  {
    forall k | 0 <= k < |ts| ensures Abs(ts[k].master - ts[k].follower) <= lag {
      assert OneRate(ats[k], ats[k + 1], ts[k]);
    }
  }

  /** A master and a follower of one rate, whatever they show at first: at unit gain the loop
      brings the error it sees within the lag of its rounds, and keeps it there. */
  lemma {:induction false} SingleRunSameRate(fs: seq<Follower>, rounds: seq<Round>, i: nat, s: Clocks,
                                             ats: seq<Instants>, ts: seq<Elapsed>, lag: nat)
    requires AllValid(fs) && Fits(rounds, |fs|) && i < |fs| && fs[i] == s.f
    requires Observes(rounds, i, s, ts) && SameRate(ats, ts) && Timely(ats, lag)
    requires s.f.ctl.filter.None? && s.f.ctl.kpPpm == UNIT_GAIN && lag < s.f.ctl.maxStep
    requires InRange(UNIT_GAIN, RawError(s.master, s.tsf)) && InRange(UNIT_GAIN, lag)
    ensures var t := Ticking(s, ts);
            && SingleRun(fs, rounds)[i] == t.f
            && (SettlingCycles(RawError(s.master, s.tsf), s.f.ctl.maxStep, lag) <= |rounds|
                ==> Abs(RawError(t.master, t.tsf)) <= lag)
  {
    SameRateDrift(ats, ts, lag);
    SingleRunContainsDrift(fs, rounds, i, s, ts, lag);
  }
}
