/** Runs that exist: one for every way a shutdown can end, and one in which a failed read parts
    the two loops. One follower, whatever its controller, is enough for each. */
module ParallelExamples {
  import opened Machine
  import opened Control
  import opened RunSingle
  import opened ParallelSync
  import opened ParallelShutdown
  import opened ParallelRefinement

  // ---------------------------------------------------------------- building a run

  datatype Trace = Trace(states: seq<State>, actions: seq<Action>)

  /** A run of the loop over one follower. */
  ghost predicate Genuine(f: Follower, r: Trace) {
    IsRun(r.states, r.actions) && r.states[0] == Init([f])
  }

  function End(r: Trace): State
    requires |r.states| == |r.actions| + 1
  {
    r.states[|r.actions|]
  }

  lemma Started(f: Follower) returns (r: Trace)
    ensures Genuine(f, r) && End(r) == Init([f]) && r.actions == []
  {
    r := Trace([Init([f])], []);
  }

  /** A run goes on with any action that is possible. */
  lemma Then(f: Follower, r: Trace, a: Action) returns (more: Trace)
    requires Genuine(f, r) && Controllable(End(r)) && Enabled(End(r), a)
    ensures Genuine(f, more) && more.actions == r.actions + [a] && End(more) == Next(End(r), a)
  {
    hide Next, Enabled, Controllable;
    more := Trace(r.states + [Next(End(r), a)], r.actions + [a]);
  }

  /** The state of a loop with one worker. */
  function Solo(running: bool, stored: u64, b1: Barrier, b2: Barrier, sampler: SamplerPc, samples: seq<Option<u64>>,
                w: Worker): State
  {
    State(running, stored, b1, b2, sampler, samples, [w])
  }

  // ---------------------------------------------------------------- every outcome happens

  /** A run with a signal in it that ends with everything stopped, in the way named. */
  ghost predicate EndsAs(f: Follower, r: Trace, o: Outcome) {
    Genuine(f, r) && Signal in r.actions && Halted(End(r)) && HaltedAs(End(r), o)
  }

  /** The signal comes first: the worker leaves, the sampler waits after its loop. */
  lemma EndsInFinalB1(f: Follower) returns (r: Trace)
    requires f.ctl.Valid()
    ensures EndsAs(f, r, StuckInFinalB1)
  {
    hide Correct, Decide;
    r := Started(f);
    r := Then(f, r, Signal);
    r := Then(f, r, Work(0, None));
    r := Then(f, r, Sampler(None));
    r := Then(f, r, Sampler(None));
    assert End(r) == Solo(false, 0, Barrier(1, 0), Barrier(0, 0), SInFinal(0), [], Worker(Exited, f, []));
    assert End(r).workers[0].pc.Exited?;
  }

  /** The signal comes when the sampler has entered a round and the worker has not. */
  lemma EndsInLoopB1(f: Follower) returns (r: Trace)
    requires f.ctl.Valid()
    ensures EndsAs(f, r, StuckInLoopB1)
  {
    hide Correct, Decide;
    r := Started(f);
    r := Then(f, r, Sampler(None));
    r := Then(f, r, Signal);
    r := Then(f, r, Work(0, None));
    r := Then(f, r, Sampler(None));
    r := Then(f, r, Sampler(None));
    assert End(r) == Solo(false, 0, Barrier(1, 0), Barrier(0, 0), SInB1(0), [None], Worker(Exited, f, []));
    assert End(r).workers[0].pc.Exited?;
  }

  /** The signal comes between the first barrier and the worker's second look at RUNNING. */
  lemma EndsInB2(f: Follower) returns (r: Trace)
    requires f.ctl.Valid()
    ensures EndsAs(f, r, StuckInB2)
  {
    hide Correct, Decide;
    r := Started(f);
    r := Then(f, r, Sampler(None));
    r := Then(f, r, Sampler(None));
    r := Then(f, r, Sampler(None));
    r := Then(f, r, Work(0, None));
    r := Then(f, r, Work(0, None));
    assert End(r) == Solo(true, 0, Barrier(0, 1), Barrier(0, 0), SInB1(0), [None], Worker(AtRecheck, f, []));
    r := Then(f, r, Signal);
    r := Then(f, r, Work(0, None));
    r := Then(f, r, Sampler(None));
    r := Then(f, r, Sampler(None));
    assert End(r) == Solo(false, 0, Barrier(0, 1), Barrier(1, 0), SInB2(0), [None], Worker(Exited, f, []));
    assert End(r).workers[0].pc.Exited?;
  }

  /** The signal comes in the window: the worker waits for a round, the sampler has not begun it. */
  lemma EndsClean(f: Follower) returns (r: Trace)
    requires f.ctl.Valid()
    ensures EndsAs(f, r, Clean)
  {
    hide Correct, Decide;
    r := Started(f);
    r := Then(f, r, Work(0, None));
    r := Then(f, r, Work(0, None));
    r := Then(f, r, Signal);
    r := Then(f, r, Sampler(None));
    r := Then(f, r, Sampler(None));
    assert End(r) == Solo(false, 0, Barrier(0, 1), Barrier(0, 0), SJoin, [], Worker(InB1(0), f, []));
    r := Then(f, r, Work(0, None));
    r := Then(f, r, Work(0, None));
    r := Then(f, r, Sampler(None));
    assert End(r) == Solo(false, 0, Barrier(0, 1), Barrier(0, 0), SDone, [], Worker(Exited, f, []));
  }

  /** None of the four outcomes is idle. */
  lemma EveryOutcomeHappens(f: Follower, o: Outcome)
    requires f.ctl.Valid()
    ensures exists r: Trace :: EndsAs(f, r, o)
  {
    hide EndsAs;
    match o
    case Clean => var r := EndsClean(f);
    case StuckInLoopB1 => var r := EndsInLoopB1(f);
    case StuckInB2 => var r := EndsInB2(f);
    case StuckInFinalB1 => var r := EndsInFinalB1(f);
  }

  // ---------------------------------------------------------------- a failed first read

  /** After a failed first read the worker is about to correct against the initial zero. */
  lemma AboutToCorrect(f: Follower) returns (r: Trace)
    requires f.ctl.Valid()
    ensures Genuine(f, r)
    ensures End(r)
         == Solo(true, 0, Barrier(0, 1), Barrier(0, 0), SInB1(0), [None], Worker(AtCorrect(0), f, []))
  {
    hide Correct, Decide;
    r := Started(f);
    r := Then(f, r, Sampler(None));
    r := Then(f, r, Sampler(None));
    r := Then(f, r, Sampler(None));
    r := Then(f, r, Work(0, None));
    r := Then(f, r, Work(0, None));
    assert End(r) == Solo(true, 0, Barrier(0, 1), Barrier(0, 0), SInB1(0), [None], Worker(AtRecheck, f, []));
    r := Then(f, r, Work(0, None));
    r := Then(f, r, Work(0, None));
  }

  /** The first read of the master fails and the follower can be read: the single loop would
      leave the follower alone, the parallel loop sets it against the zero its atomic began
      with, and back between rounds the two differ. */
  lemma FirstReadFails(f: Follower, tsf: u64) returns (r: Trace)
    requires f.ctl.Valid()
    ensures Genuine(f, r) && Gathering(End(r)) && Rounds(End(r)) == 1
    ensures Followers(End(r)) == [Correct(f, 0, Some(tsf))]
    ensures SingleRun([f], [Round(None, [Some(tsf)])]) == [f] != Followers(End(r))
  {
    hide Correct, Decide, SingleRun;
    r := AboutToCorrect(f);
    CorrectValid(f, 0, Some(tsf));
    var g := Correct(f, 0, Some(tsf));
    r := Then(f, r, Work(0, Some(tsf)));
    assert End(r).workers[0].readings == [Some(tsf)];
    assert End(r) == Solo(true, 0, Barrier(0, 1), Barrier(0, 0), SInB1(0), [None], Worker(AtB2, g, [Some(tsf)]));
    r := Then(f, r, Sampler(None));
    r := Then(f, r, Sampler(None));
    r := Then(f, r, Work(0, None));
    assert End(r) == Solo(true, 0, Barrier(0, 1), Barrier(0, 1), SInB2(0), [None], Worker(AtCheck, g, [Some(tsf)]));
    assert Followers(End(r)) == [g];
    CorrectWrites(f, 0, Some(tsf));
    SkippedRound([f], [Round(None, [Some(tsf)])]);
  }

  lemma SkippedRound(fs: seq<Follower>, rounds: seq<Round>)
    requires AllValid(fs) && Fits(rounds, |fs|) && |rounds| == 1 && rounds[0].master.None?
    ensures SingleRun(fs, rounds) == fs
  {
    assert SingleRun(fs, rounds[..0]) == fs;
  }
}
