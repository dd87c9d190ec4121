/** The parallel loop on clocks that tick: what ClockLoop says of the single-threaded loop's
    followers, said of its own, in every run and under every interleaving. */
module ParallelClocks {
  import opened Machine
  import opened Control
  import opened ClosedLoop
  import opened FilterEnergy
  import opened FreeSteps
  import opened KalmanLoop
  import opened RunSingle
  import opened ClockLoop
  import opened ParallelSync
  import opened ParallelRefinement

  /** In each completed round the sampler read the master and worker `i` its follower, and both
      saw what the clocks show. */
  ghost predicate Watches(s: State, i: nat, c: Clocks, ts: seq<Elapsed>)
    requires c.f.ctl.Valid()
  {
    && |ts| == Rounds(s) <= |s.samples|
    && i < |s.workers| && |s.workers[i].readings| == Rounds(s)
    && forall k | 0 <= k < |ts| ::
         && s.samples[k] == Some(Ticking(c, ts[..k]).master)
         && s.workers[i].readings[k] == Some(Ticking(c, ts[..k]).tsf)
  }

  lemma {:induction false} WatchesIsObserves(s: State, i: nat, c: Clocks, ts: seq<Elapsed>)
    requires c.f.ctl.Valid() && Watches(s, i, c, ts)
    requires forall j | 0 <= j < |s.workers| :: Rounds(s) <= |s.workers[j].readings|
    ensures Observes(RoundsOf(s, Rounds(s)), i, c, ts)
  {
    hide Ticking;
  }

  /** Between rounds a follower of the parallel loop is the follower of the clocks it watches. */
  lemma {:induction false} ParallelTicks(fs: seq<Follower>, states: seq<State>, actions: seq<Action>, k: nat,
                                         i: nat, c: Clocks, ts: seq<Elapsed>)
    requires AllValid(fs) && i < |fs| && fs[i] == c.f
    requires IsRun(states, actions) && states[0] == Init(fs) && k < |states| && Gathering(states[k])
    requires Watches(states[k], i, c, ts)
    ensures Followers(states[k])[i] == Ticking(c, ts).f
  {
    hide SingleRun, Ticking, Watches, Observes, IsRun;
    ParallelRefinesSingle(fs, states, actions, k);
    WatchesIsObserves(states[k], i, c, ts);
    RoundsFit(states[k], Rounds(states[k]));
    SingleRunTicks(fs, RoundsOf(states[k], Rounds(states[k])), i, c, ts);
  }

  /** So the parallel loop, too, brings a follower that does not drift level with the master, a
      microsecond a round at least. */
  lemma {:induction false} ParallelConverges(fs: seq<Follower>, states: seq<State>, actions: seq<Action>, k: nat,
                                             i: nat, c: Clocks, ts: seq<Elapsed>)
    requires AllValid(fs) && i < |fs| && fs[i] == c.f
    requires IsRun(states, actions) && states[0] == Init(fs) && k < |states| && Gathering(states[k])
    requires Watches(states[k], i, c, ts)
    requires forall j | 0 <= j < |ts| :: ts[j].master == ts[j].follower
    requires c.f.ctl.filter.None? && Contracting(c.f.ctl.kpPpm, c.f.ctl.maxStep)
    requires Harmless(c.f.ctl.kpPpm, c.f.ctl.maxStep, RawError(c.master, c.tsf))
    ensures var t, e, n := Ticking(c, ts), Abs(RawError(c.master, c.tsf)), Rounds(states[k]);
            && Followers(states[k])[i] == t.f
            && Abs(RawError(t.master, t.tsf)) <= (if n < e then e - n else 0)
  {
    hide SingleRun, Ticking, Watches, Observes, IsRun, RawError, Contracting, Harmless;
    ParallelTicks(fs, states, actions, k, i, c, ts);
    ParallelRefinesSingle(fs, states, actions, k);
    WatchesIsObserves(states[k], i, c, ts);
    RoundsFit(states[k], Rounds(states[k]));
    SingleRunConverges(fs, RoundsOf(states[k], Rounds(states[k])), i, c, ts);
  }

  /** It holds one that drifts, at unit gain, to a round's worth of drift. */
  lemma {:induction false} ParallelContainsDrift(fs: seq<Follower>, states: seq<State>, actions: seq<Action>, k: nat,
                                                 i: nat, c: Clocks, ts: seq<Elapsed>, bound: nat)
    requires AllValid(fs) && i < |fs| && fs[i] == c.f
    requires IsRun(states, actions) && states[0] == Init(fs) && k < |states| && Gathering(states[k])
    requires Watches(states[k], i, c, ts)
    requires DriftWithin(Drifts(ts), bound)
    requires c.f.ctl.filter.None? && c.f.ctl.kpPpm == UNIT_GAIN && bound < c.f.ctl.maxStep
    requires InRange(UNIT_GAIN, RawError(c.master, c.tsf)) && InRange(UNIT_GAIN, bound)
    ensures var t := Ticking(c, ts);
            && Followers(states[k])[i] == t.f
            && (SettlingCycles(RawError(c.master, c.tsf), c.f.ctl.maxStep, bound) <= Rounds(states[k])
                ==> Abs(RawError(t.master, t.tsf)) <= bound)
  {
    hide SingleRun, Ticking, Watches, Observes, IsRun, RawError, InRange, SettlingCycles;
    ParallelTicks(fs, states, actions, k, i, c, ts);
    ParallelRefinesSingle(fs, states, actions, k);
    WatchesIsObserves(states[k], i, c, ts);
    RoundsFit(states[k], Rounds(states[k]));
    SingleRunContainsDrift(fs, RoundsOf(states[k], Rounds(states[k])), i, c, ts, bound);
  }

  /** And tracks one with its filter on, drift and all, without clamping a step. */
  lemma {:induction false} ParallelTracks(fs: seq<Follower>, states: seq<State>, actions: seq<Action>, k: nat,
                                          i: nat, c: Clocks, ts: seq<Elapsed>, b: Envelope)
    requires AllValid(fs) && i < |fs| && fs[i] == c.f
    requires IsRun(states, actions) && states[0] == Init(fs) && k < |states| && Gathering(states[k])
    requires Watches(states[k], i, c, ts)
    requires WellStarted(LoopOf(c), b) && DriftWithin(Drifts(ts), b.drift)
    ensures c.f.ctl.filter.Some? && c.f.ctl.filter.value.Gain() > 0.0 && 0 < c.f.ctl.kpPpm
    ensures var t, g := Ticking(c, ts), c.f.ctl.filter.value.Gain();
            var err := RawError(t.master, t.tsf) as real;
            && Followers(states[k])[i] == t.f
            && Unclamped(LoopOf(t))
            && b.margin * (err * err) <= Level(g, Cost(c.f.ctl.kpPpm, b.drift), b.ceiling, Rounds(states[k]))
                                      <= b.ceiling
  {
    hide SingleRun, Ticking, Watches, Observes, IsRun, RawError, WellStarted, Level, Unclamped, Cost, Filter.Gain;
    WellStartedControl(LoopOf(c), b);
    ParallelTicks(fs, states, actions, k, i, c, ts);
    ParallelRefinesSingle(fs, states, actions, k);
    WatchesIsObserves(states[k], i, c, ts);
    RoundsFit(states[k], Rounds(states[k]));
    SingleRunTracks(fs, RoundsOf(states[k], Rounds(states[k])), i, c, ts, b);
  }
}
