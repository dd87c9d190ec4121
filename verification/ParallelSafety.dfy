/** Safety and progress of the barrier-synchronised loop, in every run and however its threads
    interleave (threading.rs:149-199). */
module ParallelSafety {
  import opened Machine
  import opened Control
  import opened ParallelSync

  // ---------------------------------------------------------------- one value a round

  /** Past the first barrier's release and not yet at the second. */
  predicate Exposed(s: State, w: Worker) {
    || (w.pc.InB1? && w.pc.gen != s.b1.gen)
    || w.pc.AtRecheck? || w.pc.AtLoad? || w.pc.AtCorrect? || w.pc.AtB2?
  }

  /** The sampler never stores while a worker could still be using the round's value; every
      worker correcting uses the one value of its round; no follower is corrected twice in a
      round. */
  lemma RoundIsolation(fs: seq<Follower>, states: seq<State>, actions: seq<Action>, k: nat)
    requires forall i | 0 <= i < |fs| :: fs[i].ctl.Valid()
    requires IsRun(states, actions) && states[0] == Init(fs) && k < |states|
    ensures var s := states[k];
            && (s.sampler.SRead? ==> forall i | 0 <= i < |s.workers| :: !Exposed(s, s.workers[i]))
            && (forall i | 0 <= i < |s.workers| && s.workers[i].pc.AtCorrect? ::
                  && |s.samples| == Rounds(s) + 1
                  && s.workers[i].pc.master == s.stored == Held(s.samples))
            && (forall i | 0 <= i < |s.workers| :: Rounds(s) <= |s.workers[i].readings| <= Rounds(s) + 1)
  {
    var s := states[k];
    RunInv(fs, states, actions, k);
    forall i | 0 <= i < |s.workers|
      ensures s.sampler.SRead? ==> !Exposed(s, s.workers[i])
      ensures s.workers[i].pc.AtCorrect? ==>
                |s.samples| == Rounds(s) + 1 && s.workers[i].pc.master == s.stored == Held(s.samples)
      ensures Rounds(s) <= |s.workers[i].readings| <= Rounds(s) + 1
    {
      PlaceOf(s, i);
    }
  }

  // ---------------------------------------------------------------- no deadlock while running

  /** Some thread can move, whatever its read returns. */
  predicate CanMove(s: State) {
    SamplerEnabled(s) || exists i: nat | i < |s.workers| :: WorkerEnabled(s, i)
  }

  lemma BlockedWorker(s: State, i: nat)
    requires Positions(s) && i < |s.workers| && !WorkerEnabled(s, i)
    ensures s.workers[i].pc.Exited? || s.workers[i].pc == if Gathering(s) then InB1(Rounds(s)) else InB2(Rounds(s))
  {
    PlaceOf(s, i);
  }

  lemma NeverStuckWhileRunning(fs: seq<Follower>, states: seq<State>, actions: seq<Action>, k: nat)
    requires forall i | 0 <= i < |fs| :: fs[i].ctl.Valid()
    requires IsRun(states, actions) && states[0] == Init(fs) && k < |states|
    requires states[k].running
    ensures CanMove(states[k])
  {
    var s, r := states[k], Rounds(states[k]);
    RunInv(fs, states, actions, k);
    if !CanMove(s) {
      var pc := if Gathering(s) then InB1(r) else InB2(r);
      forall i | 0 <= i < |s.workers| ensures s.workers[i].pc == pc {
        PlaceOf(s, i);
        assert !WorkerEnabled(s, i);
        BlockedWorker(s, i);
      }
      CountAll(s.workers, pc);
    }
  }

  // ---------------------------------------------------------------- no livelock while running

  /** How far a worker has come since the start, in steps of a running loop. */
  function WorkerProgress(pc: WorkerPc, round: nat): nat {
    match pc
    case InB2(g) => 8 * g + 7
    case AtCheck => 8 * round
    case AtB1 => 8 * round + 1
    case InB1(_) => 8 * round + 2
    case AtRecheck => 8 * round + 3
    case AtLoad => 8 * round + 4
    case AtCorrect(_) => 8 * round + 5
    case AtB2 => 8 * round + 6
    case Exited => 0
  }

  function SamplerProgress(pc: SamplerPc, round: nat): nat {
    match pc
    case SInB2(g) => 8 * g + 6
    case STail => 8 * round
    case SCheck => 8 * round + 1
    case SRead => 8 * round + 2
    case SAtB1 => 8 * round + 3
    case SInB1(_) => 8 * round + 4
    case SAtB2 => 8 * round + 5
    case _ => 0
  }

  function WorkersProgress(ws: seq<Worker>, round: nat): nat {
    if ws == [] then 0 else
      WorkersProgress(ws[..|ws| - 1], round) + WorkerProgress(ws[|ws| - 1].pc, round)
  }

  function Progress(s: State): nat {
    WorkersProgress(s.workers, Rounds(s)) + SamplerProgress(s.sampler, Rounds(s))
  }

  lemma {:induction false} ProgressUpdate(ws: seq<Worker>, i: nat, w: Worker, round: nat)
    requires i < |ws|
    ensures WorkersProgress(ws[i := w], round)
         == WorkersProgress(ws, round) - WorkerProgress(ws[i].pc, round) + WorkerProgress(w.pc, round)
  {
    var n := |ws| - 1;
    if i == n {
      assert ws[i := w][..n] == ws[..n];
    } else {
      ProgressUpdate(ws[..n], i, w, round);
      assert ws[i := w][..n] == ws[..n][i := w];
    }
  }

  /** Workers waiting in the second barrier count the same before and after it opens. */
  lemma {:induction false} WaitersKeepProgress(ws: seq<Worker>, round: nat, round': nat)
    requires forall i | 0 <= i < |ws| :: ws[i].pc.InB2?
    ensures WorkersProgress(ws, round) == WorkersProgress(ws, round')
  {
    if ws != [] {
      WaitersKeepProgress(ws[..|ws| - 1], round, round');
    }
  }

  lemma {:induction false} ProgressBounded(ws: seq<Worker>, round: nat)
    requires forall i | 0 <= i < |ws| :: ws[i].pc.InB2? ==> ws[i].pc.gen <= round
    ensures WorkersProgress(ws, round) <= |ws| * (8 * round + 7)
  {
    if ws != [] {
      ProgressBounded(ws[..|ws| - 1], round);
      assert |ws| * (8 * round + 7) == (|ws| - 1) * (8 * round + 7) + (8 * round + 7);
    }
  }

  lemma WorkerProgresses(s: State, i: nat, reading: Option<u64>)
    requires Controllable(s) && Positions(s) && WorkerEnabled(s, i) && s.running
    ensures Progress(WorkerStep(s, i, reading)) > Progress(s)
  {
    hide Correct, Decide, WorkersProgress;
    PlaceOf(s, i);
    if s.workers[i].pc == AtB2 && s.b2.count == |s.workers| {
      TripProgresses(s, i, reading);
    } else {
      var t := WorkerStep(s, i, reading);
      assert t.workers == s.workers[i := t.workers[i]];
      ProgressUpdate(s.workers, i, t.workers[i], Rounds(s));
    }
  }

  /** The worker that opens the second barrier moves on; the others count as before. */
  lemma TripProgresses(s: State, i: nat, reading: Option<u64>)
    requires Controllable(s) && Positions(s) && i < |s.workers|
    requires s.workers[i].pc == AtB2 && s.b2.count == |s.workers|
    ensures Progress(WorkerStep(s, i, reading)) > Progress(s)
  {
    hide Correct, Decide, WorkersProgress;
    OthersInB2(s, i);
    var t, r := WorkerStep(s, i, reading), Rounds(s);
    var waiting := s.workers[i := s.workers[i].(pc := InB2(r))];
    ProgressUpdate(s.workers, i, waiting[i], r);
    WaitersKeepProgress(waiting, r, r + 1);
    ProgressUpdate(waiting, i, t.workers[i], r + 1);
    assert waiting[i := t.workers[i]] == t.workers;
  }

  lemma SamplerProgresses(s: State, read: Option<u64>)
    requires Positions(s) && SamplerEnabled(s) && s.running
    ensures Progress(SamplerStep(s, read)) > Progress(s)
  {
    var r := Rounds(s);
    if s.sampler == SAtB2 && s.b2.count == |s.workers| {
      CountAll(s.workers, InB2(r));
      WaitersKeepProgress(s.workers, r, r + 1);
    }
  }

  /** In a run without a signal, rounds keep completing: no schedule, fair or not, can spend
      more than 8(n + 1) steps a round. */
  lemma RoundsKeepCompleting(fs: seq<Follower>, states: seq<State>, actions: seq<Action>)
    requires forall i | 0 <= i < |fs| :: fs[i].ctl.Valid()
    requires IsRun(states, actions) && states[0] == Init(fs)
    requires forall k | 0 <= k < |actions| :: actions[k] != Signal
    ensures |actions| <= 8 * (|fs| + 1) * (Rounds(states[|actions|]) + 1)
  {
    hide WorkersProgress, WorkerProgress, SamplerProgress;
    StepsProgress(fs, states, actions, |actions|);
    RunInv(fs, states, actions, |actions|);
    ProgressByRounds(states[|actions|]);
  }

  lemma ProgressByRounds(s: State)
    requires Positions(s)
    ensures Progress(s) <= 8 * (|s.workers| + 1) * (Rounds(s) + 1)
  {
    var n, r := |s.workers|, Rounds(s);
    forall i | 0 <= i < n ensures s.workers[i].pc.InB2? ==> s.workers[i].pc.gen <= r {
      PlaceOf(s, i);
    }
    ProgressBounded(s.workers, r);
    assert SamplerProgress(s.sampler, r) <= 8 * r + 7;
    RoundArithmetic(n, r);
  }

  lemma RoundArithmetic(n: nat, r: nat)
    ensures n * (8 * r + 7) + 8 * r + 7 <= 8 * (n + 1) * (r + 1)
  {
    assert 8 * (n + 1) * (r + 1) == n * (8 * r + 7) + n + 8 * r + 8;
  }

  lemma {:induction false} StepsProgress(fs: seq<Follower>, states: seq<State>, actions: seq<Action>, k: nat)
    requires forall i | 0 <= i < |fs| :: fs[i].ctl.Valid()
    requires IsRun(states, actions) && states[0] == Init(fs) && k <= |actions|
    requires forall j | 0 <= j < |actions| :: actions[j] != Signal
    ensures states[k].running && k <= Progress(states[k]) && |states[k].workers| == |fs|
  {
    hide Progress, Positions, Values, Next, Enabled;
    if k > 0 {
      StepsProgress(fs, states, actions, k - 1);
      RunInv(fs, states, actions, k - 1);
      StepProgresses(states[k - 1], actions[k - 1]);
    }
  }

  lemma StepProgresses(s: State, a: Action)
    requires Controllable(s) && Positions(s) && Enabled(s, a) && s.running && a != Signal
    ensures Progress(Next(s, a)) > Progress(s) && Next(s, a).running
    ensures |Next(s, a).workers| == |s.workers|
  {
    match a
    case Sampler(read) => SamplerProgresses(s, read);
    case Work(i, reading) => WorkerProgresses(s, i, reading);
  }
}
