/** The barrier-synchronised sync loop (threading.rs:108-209) as a step relation: one sampler,
    any number of workers, two reusable barriers, and a signal that may clear RUNNING at any
    moment. Every access to shared state is a step of its own. */
module ParallelSync {
  import opened Machine
  import opened Control

  // ---------------------------------------------------------------- state

  /** Where a worker is: about to test RUNNING, about to arrive at a barrier, waiting in one
      for the generation it arrived in to pass, and so on down its loop. */
  datatype WorkerPc =
    | AtCheck | AtB1 | InB1(gen: nat) | AtRecheck
    | AtLoad | AtCorrect(master: u64) | AtB2 | InB2(gen: nat)
    | Exited

  datatype SamplerPc =
    | SCheck | SRead | SAtB1 | SInB1(gen: nat) | SAtB2 | SInB2(gen: nat) | STail
    | SAtFinal | SInFinal(gen: nat) | SJoin | SDone

  /** A reusable barrier: arrivals so far in this generation, and the generation. */
  datatype Barrier = Barrier(count: nat, gen: nat)

  /** A worker owns its follower; `readings` lists what its reads of it returned. */
  datatype Worker = Worker(pc: WorkerPc, follower: Follower, readings: seq<Option<u64>>)

  /** `samples` lists what the sampler's reads of the master returned. */
  datatype State = State(
    running: bool, stored: u64, b1: Barrier, b2: Barrier,
    sampler: SamplerPc, samples: seq<Option<u64>>, workers: seq<Worker>)

  datatype Action =
    | Signal
    | Sampler(read: Option<u64>)
    | Work(i: nat, reading: Option<u64>)

  function Init(fs: seq<Follower>): State {
    State(true, 0, Barrier(0, 0), Barrier(0, 0), SCheck, [],
          seq(|fs|, i requires 0 <= i < |fs| => Worker(AtCheck, fs[i], [])))
  }

  // ---------------------------------------------------------------- steps

  /** One arrival at a barrier for the workers and the sampler: the last one trips it. */
  function Arrive(b: Barrier, workers: nat): (Barrier, bool) {
    if b.count + 1 < workers + 1 then (Barrier(b.count + 1, b.gen), false)
    else (Barrier(0, b.gen + 1), true)
  }

  predicate SamplerEnabled(s: State) {
    match s.sampler
    case SInB1(g) => s.b1.gen != g
    case SInB2(g) => s.b2.gen != g
    case SInFinal(g) => s.b1.gen != g
    case SJoin => forall i | 0 <= i < |s.workers| :: s.workers[i].pc.Exited?
    case SDone => false
    case _ => true
  }

  predicate WorkerEnabled(s: State, i: nat) {
    i < |s.workers| &&
    match s.workers[i].pc
    case InB1(g) => s.b1.gen != g
    case InB2(g) => s.b2.gen != g
    case Exited => false
    case _ => true
  }

  predicate Enabled(s: State, a: Action) {
    match a
    case Signal => s.running
    case Sampler(_) => SamplerEnabled(s)
    case Work(i, _) => WorkerEnabled(s, i)
  }

  function SamplerStep(s: State, read: Option<u64>): State {
    var n := |s.workers|;
    match s.sampler
    case SCheck => s.(sampler := if s.running then SRead else SAtFinal)
    case SRead => s.(stored := if read.Some? then read.value else s.stored,
                     samples := s.samples + [read], sampler := SAtB1)
    case SAtB1 => var (b, trips) := Arrive(s.b1, n);
                  s.(b1 := b, sampler := if trips then SAtB2 else SInB1(s.b1.gen))
    case SInB1(_) => s.(sampler := SAtB2)
    case SAtB2 => var (b, trips) := Arrive(s.b2, n);
                  s.(b2 := b, sampler := if trips then STail else SInB2(s.b2.gen))
    case SInB2(_) => s.(sampler := STail)
    case STail => s.(sampler := SCheck)
    case SAtFinal => var (b, trips) := Arrive(s.b1, n);
                     s.(b1 := b, sampler := if trips then SJoin else SInFinal(s.b1.gen))
    case SInFinal(_) => s.(sampler := SJoin)
    case SJoin => s.(sampler := SDone)
    case SDone => s
  }

  function SetWorker(s: State, i: nat, w: Worker): State
    requires i < |s.workers|
  {
    s.(workers := s.workers[i := w])
  }

  function WorkerStep(s: State, i: nat, reading: Option<u64>): State
    requires i < |s.workers| && s.workers[i].follower.ctl.Valid()
  {
    var n, w := |s.workers|, s.workers[i];
    match w.pc
    case AtCheck => SetWorker(s, i, w.(pc := if s.running then AtB1 else Exited))
    case AtB1 => var (b, trips) := Arrive(s.b1, n);
                 SetWorker(s.(b1 := b), i, w.(pc := if trips then AtRecheck else InB1(s.b1.gen)))
    case InB1(_) => SetWorker(s, i, w.(pc := AtRecheck))
    case AtRecheck => SetWorker(s, i, w.(pc := if s.running then AtLoad else Exited))
    case AtLoad => SetWorker(s, i, w.(pc := AtCorrect(s.stored)))
    case AtCorrect(m) => SetWorker(s, i, Worker(AtB2, Correct(w.follower, m, reading), w.readings + [reading]))
    case AtB2 => var (b, trips) := Arrive(s.b2, n);
                 SetWorker(s.(b2 := b), i, w.(pc := if trips then AtCheck else InB2(s.b2.gen)))
    case InB2(_) => SetWorker(s, i, w.(pc := AtCheck))
    case Exited => s
  }

  ghost predicate Controllable(s: State) {
    forall i | 0 <= i < |s.workers| :: s.workers[i].follower.ctl.Valid()
  }

  ghost function Next(s: State, a: Action): State
    requires Controllable(s) && Enabled(s, a)
  {
    match a
    case Signal => s.(running := false)
    case Sampler(read) => SamplerStep(s, read)
    case Work(i, reading) => WorkerStep(s, i, reading)
  }

  /** A run: states, and the action that leads from each to the next. */
  ghost predicate IsRun(states: seq<State>, actions: seq<Action>) {
    && |states| == |actions| + 1
    && forall k | 0 <= k < |actions| ::
         Controllable(states[k]) && Enabled(states[k], actions[k]) && states[k + 1] == Next(states[k], actions[k])
  }

  // ---------------------------------------------------------------- what the data should be

  /** The value the sampler has published after these reads: the last that succeeded, or the
      zero the atomic started with. */
  function Held(samples: seq<Option<u64>>): u64 {
    if samples == [] then 0
    else if samples[|samples| - 1].Some? then samples[|samples| - 1].value
    else Held(samples[..|samples| - 1])
  }

  /** A follower corrected once a round, each round against that round's published value. */
  ghost function Replay(f: Follower, samples: seq<Option<u64>>, readings: seq<Option<u64>>): (r: Follower)
    requires f.ctl.Valid() && |readings| <= |samples|
    ensures r.ctl.Valid()
  {
    if readings == [] then f else
      var n := |readings| - 1;
      var before := Replay(f, samples, readings[..n]);
      CorrectValid(before, Held(samples[..n + 1]), readings[n]);
      Correct(before, Held(samples[..n + 1]), readings[n])
  }

  lemma {:induction false} ReplayExtends(f: Follower, samples: seq<Option<u64>>, more: Option<u64>,
                                        readings: seq<Option<u64>>)
    requires f.ctl.Valid() && |readings| <= |samples|
    ensures Replay(f, samples + [more], readings) == Replay(f, samples, readings)
  {
    if readings != [] {
      var n := |readings| - 1;
      ReplayExtends(f, samples, more, readings[..n]);
      assert (samples + [more])[..n + 1] == samples[..n + 1];
    }
  }

  // ---------------------------------------------------------------- counting waiters

  function Count(ws: seq<Worker>, pc: WorkerPc): nat {
    if ws == [] then 0 else Count(ws[..|ws| - 1], pc) + if ws[|ws| - 1].pc == pc then 1 else 0
  }

  lemma {:induction false} CountUpdate(ws: seq<Worker>, i: nat, w: Worker, pc: WorkerPc)
    requires i < |ws|
    ensures Count(ws[i := w], pc)
         == Count(ws, pc) - (if ws[i].pc == pc then 1 else 0) + (if w.pc == pc then 1 else 0)
  {
    var n := |ws| - 1;
    if i == n {
      assert ws[i := w][..n] == ws[..n];
    } else {
      CountUpdate(ws[..n], i, w, pc);
      assert ws[i := w][..n] == ws[..n][i := w];
    }
  }

  lemma {:induction false} CountAll(ws: seq<Worker>, pc: WorkerPc)
    ensures Count(ws, pc) <= |ws|
    ensures Count(ws, pc) == |ws| <==> forall i | 0 <= i < |ws| :: ws[i].pc == pc
    ensures Count(ws, pc) == 0 <==> forall i | 0 <= i < |ws| :: ws[i].pc != pc
  {
    if ws != [] {
      CountAll(ws[..|ws| - 1], pc);
    }
  }

  /** All workers but possibly one are at `pc`. */
  lemma CountAllBut(ws: seq<Worker>, i: nat, pc: WorkerPc)
    requires i < |ws| && ws[i].pc != pc && Count(ws, pc) + 1 == |ws|
    ensures forall j | 0 <= j < |ws| && j != i :: ws[j].pc == pc
  {
    var w := ws[i].(pc := pc);
    CountUpdate(ws, i, w, pc);
    CountAll(ws[i := w], pc);
    forall j | 0 <= j < |ws| && j != i ensures ws[j].pc == pc {
      assert ws[i := w][j] == ws[j];
    }
  }

  // ---------------------------------------------------------------- the invariant

  /** Rounds completed: the generation of the second barrier. */
  function Rounds(s: State): nat {
    s.b2.gen
  }

  /** Between the second barrier's release and the first one's. */
  predicate Gathering(s: State) {
    s.b1.gen == s.b2.gen
  }

  /** Between the first barrier's release and the second one's. */
  predicate Correcting(s: State) {
    s.b1.gen == s.b2.gen + 1
  }

  predicate Final(pc: SamplerPc) {
    pc.SAtFinal? || pc.SInFinal? || pc.SJoin? || pc.SDone?
  }

  /** A worker's place, and how many readings it has made, while gathering. */
  predicate WorkerGathers(s: State, w: Worker) {
    && |w.readings| == Rounds(s)
    && match w.pc
       case AtCheck => true
       case AtB1 => true
       case InB1(g) => g == Rounds(s)
       case InB2(g) => g + 1 == Rounds(s)
       case Exited => !s.running
       case _ => false
  }

  predicate WorkerCorrects(s: State, w: Worker) {
    match w.pc
    case InB1(g) => g == Rounds(s) == |w.readings|
    case AtRecheck => |w.readings| == Rounds(s)
    case AtLoad => |w.readings| == Rounds(s) && !Final(s.sampler)
    case AtCorrect(m) => |w.readings| == Rounds(s) && m == s.stored && !Final(s.sampler)
    case AtB2 => |w.readings| == Rounds(s) + 1 && !Final(s.sampler)
    case InB2(g) => g == Rounds(s) && |w.readings| == Rounds(s) + 1 && !Final(s.sampler)
    case Exited => !s.running && |w.readings| == Rounds(s)
    case _ => false
  }

  predicate SamplerGathers(s: State) {
    var r := Rounds(s);
    match s.sampler
    case SInB2(g) => g + 1 == r == |s.samples|
    case STail => |s.samples| == r
    case SCheck => |s.samples| == r
    case SRead => |s.samples| == r
    case SAtB1 => |s.samples| == r + 1
    case SInB1(g) => g == r && |s.samples| == r + 1
    case SAtFinal => !s.running && |s.samples| == r
    case SInFinal(g) => !s.running && g == r == |s.samples|
    case _ => false
  }

  predicate SamplerCorrects(s: State) {
    var r := Rounds(s);
    match s.sampler
    case SInB1(g) => g == r && |s.samples| == r + 1
    case SAtB2 => |s.samples| == r + 1
    case SInB2(g) => g == r && |s.samples| == r + 1
    case SInFinal(g) => !s.running && g == r == |s.samples|
    case SJoin => !s.running && |s.samples| == r
    case SDone => !s.running && |s.samples| == r && forall i | 0 <= i < |s.workers| :: s.workers[i].pc.Exited?
    case _ => false
  }

  /** Positions and barrier counts. */
  predicate Positions(s: State) {
    var n, r := |s.workers|, Rounds(s);
    if Gathering(s) then
      && SamplerGathers(s)
      && (forall i | 0 <= i < n :: WorkerGathers(s, s.workers[i]))
      && s.b1.count == Count(s.workers, InB1(r)) + (if s.sampler == SInB1(r) || s.sampler == SInFinal(r) then 1 else 0)
      && s.b1.count <= n && s.b2.count == 0
    else
      && Correcting(s)
      && SamplerCorrects(s)
      && (forall i | 0 <= i < n :: WorkerCorrects(s, s.workers[i]))
      && s.b2.count == Count(s.workers, InB2(r)) + (if s.sampler == SInB2(r) then 1 else 0)
      && s.b2.count <= n && s.b1.count == 0
  }

  /** Values: the published one, and every follower's history. */
  ghost predicate Values(fs: seq<Follower>, s: State) {
    && |fs| == |s.workers|
    && s.stored == Held(s.samples)
    && forall i | 0 <= i < |fs| ::
         && fs[i].ctl.Valid() && |s.workers[i].readings| <= |s.samples|
         && s.workers[i].follower == Replay(fs[i], s.samples, s.workers[i].readings)
  }

  ghost predicate Inv(fs: seq<Follower>, s: State) {
    Positions(s) && Values(fs, s)
  }

  lemma InitInv(fs: seq<Follower>)
    requires forall i | 0 <= i < |fs| :: fs[i].ctl.Valid()
    ensures Inv(fs, Init(fs))
  {
    CountAll(Init(fs).workers, InB1(0));
  }

  lemma SignalInv(fs: seq<Follower>, s: State)
    requires Inv(fs, s) && s.running
    ensures Inv(fs, s.(running := false))
  {
    var t := s.(running := false);
    forall i | 0 <= i < |s.workers|
      ensures Gathering(s) ==> WorkerGathers(t, t.workers[i])
      ensures !Gathering(s) ==> WorkerCorrects(t, t.workers[i])
    {
      assert Gathering(s) ==> WorkerGathers(s, s.workers[i]);
      assert !Gathering(s) ==> WorkerCorrects(s, s.workers[i]);
    }
  }

  // ---------------------------------------------------------------- the invariant is kept

  /** What the invariant says of one worker. */
  lemma PlaceOf(s: State, i: nat)
    requires Positions(s) && i < |s.workers|
    ensures if Gathering(s) then WorkerGathers(s, s.workers[i]) else Correcting(s) && WorkerCorrects(s, s.workers[i])
  {
  }

  /** Steps of a worker that do not trip a barrier keep the phase, so only the worker itself
      and the count of waiters need looking at. */
  lemma WorkerKeepsGathering(s: State, i: nat, reading: Option<u64>)
    requires Controllable(s) && Positions(s) && WorkerEnabled(s, i) && Gathering(s)
    requires s.workers[i].pc == AtB1 ==> s.b1.count < |s.workers|
    ensures Positions(WorkerStep(s, i, reading))
  {
    hide Correct, Decide;
    PlaceOf(s, i);
    var t, r := WorkerStep(s, i, reading), Rounds(s);
    var w := t.workers[i];
    assert t.workers == s.workers[i := w];
    CountUpdate(s.workers, i, w, InB1(r));
    forall j | 0 <= j < |t.workers| ensures WorkerGathers(t, t.workers[j]) {
      PlaceOf(s, j);
    }
  }

  /** What such a step does while correcting: one worker, and one more at the second barrier if
      it waits there now. */
  lemma CorrectingMove(s: State, i: nat, reading: Option<u64>)
    requires Controllable(s) && Positions(s) && WorkerEnabled(s, i) && !Gathering(s)
    requires s.workers[i].pc == AtB2 ==> s.b2.count < |s.workers|
    ensures var t, r := WorkerStep(s, i, reading), Rounds(s);
            && |t.workers| == |s.workers|
            && t == s.(b2 := t.b2, workers := s.workers[i := t.workers[i]])
            && Rounds(t) == r && t.b2.count <= |s.workers|
            && WorkerCorrects(t, t.workers[i])
            && s.workers[i].pc != InB2(r)
            && t.b2.count == s.b2.count + if t.workers[i].pc == InB2(r) then 1 else 0
  {
    hide Correct, Decide, Count, Controllable;
    PlaceOf(s, i);
  }

  lemma WorkerKeepsCorrecting(s: State, i: nat, reading: Option<u64>)
    requires Controllable(s) && Positions(s) && WorkerEnabled(s, i) && !Gathering(s)
    requires s.workers[i].pc == AtB2 ==> s.b2.count < |s.workers|
    ensures Positions(WorkerStep(s, i, reading))
  {
    hide WorkerStep, Count;
    CorrectingMove(s, i, reading);
    var t, r := WorkerStep(s, i, reading), Rounds(s);
    CountUpdate(s.workers, i, t.workers[i], InB2(r));
    forall j | 0 <= j < |t.workers| ensures WorkerCorrects(t, t.workers[j]) {
      PlaceOf(s, j);
    }
  }

  /** Everyone but the arriving worker is waiting when it trips the first barrier. */
  lemma OthersInB1(s: State, i: nat)
    requires Positions(s) && i < |s.workers| && s.workers[i].pc == AtB1 && s.b1.count == |s.workers|
    ensures Gathering(s)
    ensures s.sampler == SInB1(Rounds(s)) || s.sampler == SInFinal(Rounds(s))
    ensures forall j | 0 <= j < |s.workers| && j != i :: s.workers[j].pc == InB1(Rounds(s))
  {
    var r := Rounds(s);
    PlaceOf(s, i);
    CountAll(s.workers, InB1(r));
    CountAllBut(s.workers, i, InB1(r));
  }

  lemma OthersInB2(s: State, i: nat)
    requires Positions(s) && i < |s.workers| && s.workers[i].pc == AtB2 && s.b2.count == |s.workers|
    ensures !Gathering(s)
    ensures s.sampler == SInB2(Rounds(s))
    ensures forall j | 0 <= j < |s.workers| && j != i :: s.workers[j].pc == InB2(Rounds(s))
  {
    var r := Rounds(s);
    PlaceOf(s, i);
    CountAll(s.workers, InB2(r));
    CountAllBut(s.workers, i, InB2(r));
  }

  lemma WorkerTripsB1(s: State, i: nat, reading: Option<u64>)
    requires Controllable(s) && Positions(s) && i < |s.workers|
    requires s.workers[i].pc == AtB1 && s.b1.count == |s.workers|
    ensures Positions(WorkerStep(s, i, reading))
  {
    var t, r := WorkerStep(s, i, reading), Rounds(s);
    OthersInB1(s, i);
    CountAll(t.workers, InB2(r));
    forall j | 0 <= j < |t.workers| ensures WorkerCorrects(t, t.workers[j]) {
      assert WorkerGathers(s, s.workers[j]);
    }
  }

  lemma WorkerTripsB2(s: State, i: nat, reading: Option<u64>)
    requires Controllable(s) && Positions(s) && i < |s.workers|
    requires s.workers[i].pc == AtB2 && s.b2.count == |s.workers|
    ensures Positions(WorkerStep(s, i, reading))
  {
    var t, r := WorkerStep(s, i, reading), Rounds(s);
    OthersInB2(s, i);
    CountAll(t.workers, InB1(r + 1));
    forall j | 0 <= j < |t.workers| ensures WorkerGathers(t, t.workers[j]) {
      assert WorkerCorrects(s, s.workers[j]);
    }
  }

  lemma WorkerPositions(s: State, i: nat, reading: Option<u64>)
    requires Controllable(s) && Positions(s) && WorkerEnabled(s, i)
    ensures Positions(WorkerStep(s, i, reading))
  {
    PlaceOf(s, i);
    var pc := s.workers[i].pc;
    if pc == AtB1 && s.b1.count == |s.workers| {
      WorkerTripsB1(s, i, reading);
    } else if pc == AtB2 && s.b2.count == |s.workers| {
      WorkerTripsB2(s, i, reading);
    } else if Gathering(s) {
      WorkerKeepsGathering(s, i, reading);
    } else {
      WorkerKeepsCorrecting(s, i, reading);
    }
  }

  /** A worker about to correct has the round's published value and lacks the round's reading. */
  lemma CorrectingWorker(s: State, i: nat)
    requires Positions(s) && i < |s.workers|
    ensures s.workers[i].pc.AtCorrect? ==>
              s.workers[i].pc.master == s.stored && |s.workers[i].readings| + 1 == |s.samples|
  {
    PlaceOf(s, i);
  }

  lemma {:induction false} OneMoreReading(f: Follower, samples: seq<Option<u64>>, readings: seq<Option<u64>>,
                                          reading: Option<u64>)
    requires f.ctl.Valid() && |readings| + 1 == |samples|
    ensures Replay(f, samples, readings + [reading]) == Correct(Replay(f, samples, readings), Held(samples), reading)
  {
    hide Correct, Held;
    var more := readings + [reading];
    assert more[..|readings|] == readings && samples[..|samples|] == samples;
  }

  lemma WorkerValues(fs: seq<Follower>, s: State, i: nat, reading: Option<u64>)
    requires Controllable(s) && Inv(fs, s) && WorkerEnabled(s, i)
    ensures Values(fs, WorkerStep(s, i, reading))
  {
    hide Correct, Decide, Held, Positions;
    CorrectingWorker(s, i);
    var t, w := WorkerStep(s, i, reading), s.workers[i];
    forall j | 0 <= j < |fs|
      ensures |t.workers[j].readings| <= |t.samples|
      ensures t.workers[j].follower == Replay(fs[j], t.samples, t.workers[j].readings)
    {
      if j == i && w.pc.AtCorrect? {
        OneMoreReading(fs[i], s.samples, w.readings, reading);
      }
    }
  }

  /** The sampler's own arrivals that trip a barrier find every worker waiting in it. */
  lemma SamplerTripsB1(s: State, read: Option<u64>)
    requires Positions(s) && (s.sampler == SAtB1 || s.sampler == SAtFinal) && s.b1.count == |s.workers|
    ensures forall i | 0 <= i < |s.workers| :: s.workers[i].pc == InB1(Rounds(s))
    ensures Positions(SamplerStep(s, read))
  {
    var t, r := SamplerStep(s, read), Rounds(s);
    CountAll(s.workers, InB1(r));
    CountAll(t.workers, InB2(r));
    forall i | 0 <= i < |t.workers| ensures WorkerCorrects(t, t.workers[i]) {
      assert WorkerGathers(s, s.workers[i]);
    }
  }

  lemma SamplerTripsB2(s: State, read: Option<u64>)
    requires Positions(s) && s.sampler == SAtB2 && s.b2.count == |s.workers|
    ensures Positions(SamplerStep(s, read))
  {
    var t, r := SamplerStep(s, read), Rounds(s);
    CountAll(s.workers, InB2(r));
    CountAll(t.workers, InB1(r + 1));
    forall i | 0 <= i < |t.workers| ensures WorkerGathers(t, t.workers[i]) {
      assert WorkerCorrects(s, s.workers[i]);
    }
  }

  lemma SamplerKeepsPhase(s: State, read: Option<u64>)
    requires Positions(s) && SamplerEnabled(s)
    requires SamplerStep(s, read).b1.gen == s.b1.gen && SamplerStep(s, read).b2.gen == s.b2.gen
    ensures Positions(SamplerStep(s, read))
  {
    hide Count;
    var t := SamplerStep(s, read);
    forall i | 0 <= i < |t.workers|
      ensures Gathering(s) ==> WorkerGathers(t, t.workers[i])
      ensures !Gathering(s) ==> WorkerCorrects(t, t.workers[i])
    {
      assert Gathering(s) ==> WorkerGathers(s, s.workers[i]);
      assert !Gathering(s) ==> WorkerCorrects(s, s.workers[i]);
    }
  }

  lemma SamplerPositions(s: State, read: Option<u64>)
    requires Positions(s) && SamplerEnabled(s)
    ensures Positions(SamplerStep(s, read))
  {
    if (s.sampler == SAtB1 || s.sampler == SAtFinal) && s.b1.count == |s.workers| {
      SamplerTripsB1(s, read);
    } else if s.sampler == SAtB2 && s.b2.count == |s.workers| {
      SamplerTripsB2(s, read);
    } else {
      SamplerKeepsPhase(s, read);
    }
  }

  lemma SamplerValues(fs: seq<Follower>, s: State, read: Option<u64>)
    requires Values(fs, s)
    ensures Values(fs, SamplerStep(s, read))
  {
    var t := SamplerStep(s, read);
    if s.sampler == SRead {
      assert t.samples[..|s.samples|] == s.samples;
      forall i | 0 <= i < |fs|
        ensures t.workers[i].follower == Replay(fs[i], t.samples, t.workers[i].readings)
      {
        ReplayExtends(fs[i], s.samples, read, s.workers[i].readings);
      }
    }
  }

  /** Every step of every thread, and the signal, keep the invariant. */
  lemma StepInv(fs: seq<Follower>, s: State, a: Action)
    requires Inv(fs, s) && Controllable(s) && Enabled(s, a)
    ensures Inv(fs, Next(s, a))
  {
    match a
    case Signal => SignalInv(fs, s);
    case Sampler(read) =>
      SamplerPositions(s, read);
      SamplerValues(fs, s, read);
    case Work(i, reading) =>
      WorkerPositions(s, i, reading);
      WorkerValues(fs, s, i, reading);
  }

  /** So every state of every run from the start satisfies it. */
  lemma {:induction false} RunInv(fs: seq<Follower>, states: seq<State>, actions: seq<Action>, k: nat)
    requires forall i | 0 <= i < |fs| :: fs[i].ctl.Valid()
    requires IsRun(states, actions) && states[0] == Init(fs) && k < |states|
    ensures Inv(fs, states[k])
  {
    if k == 0 {
      InitInv(fs);
    } else {
      RunInv(fs, states, actions, k - 1);
      StepInv(fs, states[k - 1], actions[k - 1]);
    }
  }
}
