/** Shutdown of the barrier-synchronised loop (threading.rs:149-164 and 177-206): once RUNNING
    has fallen the outcome is settled, whatever the threads do from there. */
module ParallelShutdown {
  import opened Machine
  import opened Control
  import opened ParallelSync

  datatype Outcome = Clean | StuckInLoopB1 | StuckInB2 | StuckInFinalB1

  /** Every worker has passed its loop check and is heading for, or in, the first barrier. */
  predicate AllHeadingIn(s: State) {
    forall i | 0 <= i < |s.workers| :: s.workers[i].pc.AtB1? || s.workers[i].pc.InB1?
  }

  /** The sampler has left the second barrier and not entered another round. */
  predicate BeforeLoopCheck(pc: SamplerPc) {
    pc.SInB2? || pc.STail? || pc.SCheck?
  }

  /** Between the first barrier and the second test of RUNNING, or gone. */
  predicate Leaving(pc: WorkerPc) {
    pc.InB1? || pc.AtRecheck? || pc.Exited?
  }

  predicate SomeLeaving(s: State) {
    exists i: nat | i < |s.workers| :: Leaving(s.workers[i].pc)
  }

  /** What a state with RUNNING down will come to. */
  function Fate(s: State): Outcome {
    if |s.workers| == 0 then Clean
    else if Gathering(s) then
      if BeforeLoopCheck(s.sampler) || Final(s.sampler) then
        if AllHeadingIn(s) then Clean else StuckInFinalB1
      else
        if AllHeadingIn(s) then StuckInB2 else StuckInLoopB1
    else
      if Final(s.sampler) then Clean
      else if SomeLeaving(s) then StuckInB2 else StuckInFinalB1
  }

  // ---------------------------------------------------------------- the fate is settled

  lemma FateAfterWorker(s: State, i: nat, reading: Option<u64>)
    requires Controllable(s) && Positions(s) && WorkerEnabled(s, i) && !s.running
    ensures Fate(WorkerStep(s, i, reading)) == Fate(s)
  {
    hide Correct, Decide, Count;
    PlaceOf(s, i);
    var t := WorkerStep(s, i, reading);
    if s.workers[i].pc == AtB1 && s.b1.count == |s.workers| {
      OthersInB1(s, i);
      assert t.workers[i].pc.AtRecheck?;
    } else if s.workers[i].pc == AtB2 && s.b2.count == |s.workers| {
      OthersInB2(s, i);
      assert t.workers[i].pc.AtCheck?;
    } else if Gathering(s) {
      assert AllHeadingIn(t) <==> AllHeadingIn(s) by {
        OneWorkerMoves(s, t, i);
      }
    } else {
      assert SomeLeaving(t) <==> SomeLeaving(s) by {
        OneWorkerMoves(s, t, i);
        LeavingKept(s, t, i);
      }
    }
  }

  lemma OneWorkerMoves(s: State, t: State, i: nat)
    requires i < |s.workers| && |t.workers| == |s.workers|
    requires forall j | 0 <= j < |s.workers| && j != i :: t.workers[j] == s.workers[j]
    ensures (t.workers[i].pc.AtB1? || t.workers[i].pc.InB1? <==> s.workers[i].pc.AtB1? || s.workers[i].pc.InB1?)
            ==> (AllHeadingIn(t) <==> AllHeadingIn(s))
  {
  }

  lemma LeavingKept(s: State, t: State, i: nat)
    requires i < |s.workers| && |t.workers| == |s.workers|
    requires forall j | 0 <= j < |s.workers| && j != i :: t.workers[j] == s.workers[j]
    requires Leaving(t.workers[i].pc) <==> Leaving(s.workers[i].pc)
    ensures SomeLeaving(t) <==> SomeLeaving(s)
  {
  }

  lemma NobodyLeft(s: State, read: Option<u64>)
    requires s.workers == []
    ensures Fate(SamplerStep(s, read)) == Fate(s)
  {
  }

  lemma FateOfFirstTrip(s: State, read: Option<u64>)
    requires Positions(s) && !s.running && s.workers != []
    requires (s.sampler == SAtB1 || s.sampler == SAtFinal) && s.b1.count == |s.workers|
    ensures Fate(SamplerStep(s, read)) == Fate(s)
  {
    hide Count;
    PlaceOf(s, 0);
    SamplerTripsB1(s, read);
    assert s.workers[0].pc.InB1?;
  }

  lemma FateOfSecondTrip(s: State, read: Option<u64>)
    requires Positions(s) && !s.running && s.workers != []
    requires s.sampler == SAtB2 && s.b2.count == |s.workers|
    ensures Fate(SamplerStep(s, read)) == Fate(s)
  {
    hide Count;
    PlaceOf(s, 0);
    CountAll(s.workers, InB2(Rounds(s)));
    assert s.workers[0].pc.InB2?;
  }

  /** Any other step of the sampler leaves the workers and the phase as they are. */
  lemma FateOfMove(s: State, read: Option<u64>)
    requires Positions(s) && SamplerEnabled(s) && !s.running && s.workers != []
    requires s.sampler == SAtB1 || s.sampler == SAtFinal ==> s.b1.count != |s.workers|
    requires s.sampler == SAtB2 ==> s.b2.count != |s.workers|
    ensures Fate(SamplerStep(s, read)) == Fate(s)
  {
    hide Count;
    PlaceOf(s, 0);
  }

  lemma FateAfterSampler(s: State, read: Option<u64>)
    requires Positions(s) && SamplerEnabled(s) && !s.running
    ensures Fate(SamplerStep(s, read)) == Fate(s)
  {
    hide Count, Fate, SamplerStep, Positions;
    if s.workers == [] {
      NobodyLeft(s, read);
    } else if (s.sampler == SAtB1 || s.sampler == SAtFinal) && s.b1.count == |s.workers| {
      FateOfFirstTrip(s, read);
    } else if s.sampler == SAtB2 && s.b2.count == |s.workers| {
      FateOfSecondTrip(s, read);
    } else {
      FateOfMove(s, read);
    }
  }

  // ---------------------------------------------------------------- and is reached

  /** Steps left to a worker that finds RUNNING down, if nothing ever blocks it. */
  function WorkerRank(pc: WorkerPc): nat {
    match pc
    case AtB1 => 3
    case InB1(_) => 2
    case AtRecheck => 1
    case AtLoad => 5
    case AtCorrect(_) => 4
    case AtB2 => 3
    case InB2(_) => 2
    case AtCheck => 1
    case Exited => 0
  }

  function SamplerRank(pc: SamplerPc): nat {
    match pc
    case SRead => 10
    case SAtB1 => 9
    case SInB1(_) => 8
    case SAtB2 => 7
    case SInB2(_) => 6
    case STail => 5
    case SCheck => 4
    case SAtFinal => 3
    case SInFinal(_) => 2
    case SJoin => 1
    case SDone => 0
  }

  function WorkersRank(ws: seq<Worker>): nat {
    if ws == [] then 0 else WorkersRank(ws[..|ws| - 1]) + WorkerRank(ws[|ws| - 1].pc)
  }

  function Rank(s: State): nat {
    WorkersRank(s.workers) + SamplerRank(s.sampler)
  }

  lemma {:induction false} RankUpdate(ws: seq<Worker>, i: nat, w: Worker)
    requires i < |ws|
    ensures WorkersRank(ws[i := w]) == WorkersRank(ws) - WorkerRank(ws[i].pc) + WorkerRank(w.pc)
  {
    var n := |ws| - 1;
    if i == n {
      assert ws[i := w][..n] == ws[..n];
    } else {
      RankUpdate(ws[..n], i, w);
      assert ws[i := w][..n] == ws[..n][i := w];
    }
  }

  lemma {:induction false} RankBounded(ws: seq<Worker>)
    ensures WorkersRank(ws) <= 5 * |ws|
  {
    if ws != [] {
      RankBounded(ws[..|ws| - 1]);
    }
  }

  lemma SamplerRankFalls(s: State, read: Option<u64>)
    requires SamplerEnabled(s) && !s.running
    ensures var t := SamplerStep(s, read);
            SamplerRank(t.sampler) < SamplerRank(s.sampler) && t.workers == s.workers && !t.running
  {
  }

  lemma WorkerRankFalls(s: State, i: nat, reading: Option<u64>)
    requires Controllable(s) && WorkerEnabled(s, i) && !s.running
    ensures var t := WorkerStep(s, i, reading);
            WorkersRank(t.workers) < WorkersRank(s.workers) && t.sampler == s.sampler && !t.running
  {
    hide Correct, Decide, WorkersRank;
    var t := WorkerStep(s, i, reading);
    assert t.workers == s.workers[i := t.workers[i]];
    RankUpdate(s.workers, i, t.workers[i]);
  }

  lemma RankFalls(s: State, a: Action)
    requires Controllable(s) && Enabled(s, a) && !s.running
    ensures Rank(Next(s, a)) < Rank(s) && !Next(s, a).running
  {
    hide SamplerStep, WorkerStep, WorkersRank;
    match a
    case Sampler(read) => SamplerRankFalls(s, read);
    case Work(i, reading) => WorkerRankFalls(s, i, reading);
  }

  /** No thread can move. */
  predicate Halted(s: State) {
    !SamplerEnabled(s) && forall i: nat | i < |s.workers| :: !WorkerEnabled(s, i)
  }

  /** Every worker has exited or waits at `pc`, and at least one has exited. */
  predicate GoneOrAt(s: State, pc: WorkerPc) {
    && (exists i: nat | i < |s.workers| :: s.workers[i].pc.Exited?)
    && forall i | 0 <= i < |s.workers| :: s.workers[i].pc.Exited? || s.workers[i].pc == pc
  }

  /** Where all threads are when everything has stopped, outcome by outcome: all gone, or the
      sampler blocked in the barrier the outcome names, together with whichever workers have not
      left, for want of one that has. */
  predicate HaltedAs(s: State, o: Outcome) {
    match o
    case Clean => s.sampler.SDone? && forall i | 0 <= i < |s.workers| :: s.workers[i].pc.Exited?
    case StuckInLoopB1 => s.sampler == SInB1(s.b1.gen) && GoneOrAt(s, InB1(s.b1.gen))
    case StuckInB2 => s.sampler == SInB2(s.b2.gen) && GoneOrAt(s, InB2(s.b2.gen))
    case StuckInFinalB1 => s.sampler == SInFinal(s.b1.gen) && GoneOrAt(s, InB1(s.b1.gen))
  }

  lemma HaltedWorker(s: State, i: nat)
    requires Positions(s) && Halted(s) && i < |s.workers|
    ensures s.workers[i].pc.Exited? || s.workers[i].pc == if Gathering(s) then InB1(Rounds(s)) else InB2(Rounds(s))
  {
    PlaceOf(s, i);
    assert !WorkerEnabled(s, i);
  }

  /** A sampler blocked in a barrier lacks a worker, and that worker has exited. */
  lemma SomeoneGone(s: State)
    requires Positions(s) && Halted(s)
    requires if Gathering(s) then s.sampler == SInB1(Rounds(s)) || s.sampler == SInFinal(Rounds(s))
             else s.sampler == SInB2(Rounds(s))
    ensures exists i: nat | i < |s.workers| :: s.workers[i].pc.Exited?
  {
    var pc := if Gathering(s) then InB1(Rounds(s)) else InB2(Rounds(s));
    CountAll(s.workers, pc);
    var i: nat :| i < |s.workers| && s.workers[i].pc != pc;
    HaltedWorker(s, i);
  }

  lemma HaltMatchesFate(s: State)
    requires Positions(s) && Halted(s) && !s.running
    ensures HaltedAs(s, Fate(s))
  {
    hide Count;
    forall i | 0 <= i < |s.workers|
      ensures s.workers[i].pc.Exited? || s.workers[i].pc == if Gathering(s) then InB1(Rounds(s)) else InB2(Rounds(s))
    {
      HaltedWorker(s, i);
    }
    if s.sampler.SInB1? || s.sampler.SInB2? || s.sampler.SInFinal? {
      SomeoneGone(s);
    } else if s.sampler.SJoin? {
      forall i | 0 <= i < |s.workers| ensures s.workers[i].pc.Exited? {
        PlaceOf(s, i);
      }
    }
  }

  // ---------------------------------------------------------------- the theorem

  lemma {:induction false} AfterSignal(fs: seq<Follower>, states: seq<State>, actions: seq<Action>, from: nat, k: nat)
    requires forall i | 0 <= i < |fs| :: fs[i].ctl.Valid()
    requires IsRun(states, actions) && states[0] == Init(fs) && from <= k < |states|
    requires !states[from].running
    ensures !states[k].running && Positions(states[k])
    ensures Fate(states[k]) == Fate(states[from]) && Rank(states[k]) + (k - from) <= Rank(states[from])
    ensures |states[k].workers| == |fs| == |states[from].workers|
  {
    hide Fate, Rank, Positions, Replay, Held, Next, Enabled;
    if k == from {
      RunInv(fs, states, actions, k);
    } else {
      AfterSignal(fs, states, actions, from, k - 1);
      RunInv(fs, states, actions, k - 1);
      StepAfterSignal(fs, states[k - 1], actions[k - 1]);
    }
  }

  lemma StepAfterSignal(fs: seq<Follower>, s: State, a: Action)
    requires Inv(fs, s) && Controllable(s) && Enabled(s, a) && !s.running
    ensures var t := Next(s, a);
            && !t.running && Positions(t) && |t.workers| == |s.workers|
            && Fate(t) == Fate(s) && Rank(t) < Rank(s)
  {
    hide Fate, Rank, Correct, Decide, Values;
    StepInv(fs, s, a);
    RankFalls(s, a);
    match a
    case Sampler(read) => FateAfterSampler(s, read);
    case Work(i, reading) => FateAfterWorker(s, i, reading);
  }

  /** The only moments at which RUNNING can fall and every thread exit. */
  predicate CleanWindow(s: State) {
    |s.workers| > 0 ==> Gathering(s) && AllHeadingIn(s) && BeforeLoopCheck(s.sampler)
  }

  /** The signal arrives at `states[k]`. At most 5n + 10 steps later nothing can move any more;
      where everyone then is depends only on the moment of the signal, and it is the clean exit
      exactly when the moment lay in the window. */
  lemma ShutdownOutcome(fs: seq<Follower>, states: seq<State>, actions: seq<Action>, k: nat)
    requires forall i | 0 <= i < |fs| :: fs[i].ctl.Valid()
    requires IsRun(states, actions) && states[0] == Init(fs) && k < |actions|
    requires actions[k] == Signal
    ensures |actions| - (k + 1) <= 5 * |fs| + 10
    ensures var end := states[|actions|];
            Halted(end) ==> HaltedAs(end, Fate(states[k + 1]))
    ensures Fate(states[k + 1]) == Clean <==> CleanWindow(states[k])
  {
    AfterSignal(fs, states, actions, k + 1, |actions|);
    AfterSignal(fs, states, actions, k + 1, k + 1);
    RankBounded(states[k + 1].workers);
    if Halted(states[|actions|]) {
      HaltMatchesFate(states[|actions|]);
    }
    RunInv(fs, states, actions, k);
    SignalFate(states[k]);
  }

  lemma SignalFate(s: State)
    requires Positions(s) && s.running
    ensures Fate(s.(running := false)) == Clean <==> CleanWindow(s)
  {
    var t := s.(running := false);
    assert AllHeadingIn(t) <==> AllHeadingIn(s);
  }
}
