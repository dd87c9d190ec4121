/** What the parallel loop does to its followers, in terms of the single-threaded loop
    (threading.rs:66-95 and 149-199). */
module ParallelRefinement {
  import opened Machine
  import opened Control
  import opened ParallelSync
  import opened RunSingle

  /** The `k`-th round of a parallel run, as the single-threaded loop would see it: the value
      the sampler held published, and each worker's reading. */
  ghost function RoundOf(s: State, k: nat): Round
    requires forall i | 0 <= i < |s.workers| :: k < |s.workers[i].readings|
    requires k < |s.samples|
  {
    Round(Some(Held(s.samples[..k + 1])),
          seq(|s.workers|, i requires 0 <= i < |s.workers| => s.workers[i].readings[k]))
  }

  ghost function RoundsOf(s: State, k: nat): seq<Round>
    requires forall i | 0 <= i < |s.workers| :: k <= |s.workers[i].readings|
    requires k <= |s.samples|
  {
    seq(k, j requires 0 <= j < k => RoundOf(s, j))
  }

  ghost function Followers(s: State): seq<Follower> {
    seq(|s.workers|, i requires 0 <= i < |s.workers| => s.workers[i].follower)
  }

  lemma {:induction false} LastSingle(fs: seq<Follower>, rounds: seq<Round>, i: nat)
    requires AllValid(fs) && Fits(rounds, |fs|) && rounds != [] && i < |fs|
    ensures var n := |rounds| - 1;
            var before := SingleRun(fs, rounds[..n])[i];
            SingleRun(fs, rounds)[i] == match rounds[n].master
                                        case None => before
                                        case Some(m) => Correct(before, m, rounds[n].readings[i])
  {
    hide Correct;
  }

  lemma {:induction false} LastReplay(f: Follower, samples: seq<Option<u64>>, readings: seq<Option<u64>>, k: nat)
    requires f.ctl.Valid() && 0 < k <= |readings| && k <= |samples|
    ensures var before := Replay(f, samples, readings[..k - 1]);
            Replay(f, samples, readings[..k]) == Correct(before, Held(samples[..k]), readings[k - 1])
    ensures samples[k - 1].Some? ==> Held(samples[..k]) == samples[k - 1].value
  {
    hide Correct;
    assert readings[..k][..k - 1] == readings[..k - 1];
    assert samples[..k][k - 1] == samples[k - 1];
  }

  lemma RoundsFit(s: State, k: nat)
    requires (forall j | 0 <= j < |s.workers| :: k <= |s.workers[j].readings|) && k <= |s.samples|
    ensures |RoundsOf(s, k)| == k && Fits(RoundsOf(s, k), |s.workers|)
  {
  }

  lemma LastRoundOf(s: State, k: nat, i: nat)
    requires 0 < k <= |s.samples| && i < |s.workers|
    requires forall j | 0 <= j < |s.workers| :: k <= |s.workers[j].readings|
    ensures var rounds := RoundsOf(s, k);
            && |rounds| == k && rounds[..k - 1] == RoundsOf(s, k - 1)
            && |rounds[k - 1].readings| == |s.workers|
            && rounds[k - 1].master == Some(Held(s.samples[..k]))
            && rounds[k - 1].readings[i] == s.workers[i].readings[k - 1]
  {
    hide Held;
  }

  lemma {:induction false} NoneYet(fs: seq<Follower>, f: Follower, s: State)
    requires AllValid(fs) && f.ctl.Valid()
    ensures RoundsOf(s, 0) == [] && SingleRun(fs, []) == fs && Replay(f, s.samples, []) == f
  {
  }

  /** Each follower's replay is its column of the single-threaded run. */
  lemma {:induction false} ReplayIsColumn(fs: seq<Follower>, s: State, k: nat, i: nat)
    requires AllValid(fs) && |fs| == |s.workers| && i < |fs|
    requires (forall j | 0 <= j < |s.workers| :: k <= |s.workers[j].readings|) && k <= |s.samples|
    ensures SingleRun(fs, RoundsOf(s, k))[i] == Replay(fs[i], s.samples, s.workers[i].readings[..k])
  {
    hide Correct, Held, RoundsOf, SingleRun, Replay;
    RoundsFit(s, k);
    NoneYet(fs, fs[i], s);
    assert s.workers[i].readings[..0] == [];
    if k > 0 {
      ReplayIsColumn(fs, s, k - 1, i);
      RoundsFit(s, k - 1);
      LastRoundOf(s, k, i);
      LastSingle(fs, RoundsOf(s, k), i);
      LastReplay(fs[i], s.samples, s.workers[i].readings, k);
    }
  }

  /** Between rounds, in every run and under every interleaving, the parallel loop has left
      every follower and controller exactly as the single-threaded loop does on the published
      values and the same readings. */
  lemma {:induction false} ParallelRefinesSingle(fs: seq<Follower>, states: seq<State>, actions: seq<Action>, k: nat)
    requires AllValid(fs)
    requires IsRun(states, actions) && states[0] == Init(fs) && k < |states|
    requires Gathering(states[k])
    ensures var s := states[k];
            && |s.workers| == |fs|
            && (forall i | 0 <= i < |fs| :: |s.workers[i].readings| == Rounds(s)) && Rounds(s) <= |s.samples|
            && Followers(s) == SingleRun(fs, RoundsOf(s, Rounds(s)))
  {
    RunInv(fs, states, actions, k);
    var s := states[k];
    forall i | 0 <= i < |fs| ensures |s.workers[i].readings| == Rounds(s) {
      PlaceOf(s, i);
    }
    forall i | 0 <= i < |fs| ensures Followers(s)[i] == SingleRun(fs, RoundsOf(s, Rounds(s)))[i] {
      ReplayIsColumn(fs, s, Rounds(s), i);
      assert s.workers[i].readings[..Rounds(s)] == s.workers[i].readings;
    }
  }

  // ---------------------------------------------------------------- failed reads of the master

  /** The rounds as they were read, failed reads of the master included. */
  ghost function RawRounds(s: State, k: nat): seq<Round>
    requires forall i | 0 <= i < |s.workers| :: k <= |s.workers[i].readings|
    requires k <= |s.samples|
  {
    seq(k, j requires 0 <= j < k => RoundOf(s, j).(master := s.samples[j]))
  }

  /** Rounds in which the master could not be read but the follower could. */
  function LateWrites(samples: seq<Option<u64>>, readings: seq<Option<u64>>): nat
    requires |readings| <= |samples|
  {
    if readings == [] then 0 else
      var n := |readings| - 1;
      LateWrites(samples, readings[..n]) + if samples[n].None? && readings[n].Some? then 1 else 0
  }

  lemma CorrectWrites(f: Follower, master: u64, reading: Option<u64>)
    requires f.ctl.Valid()
    ensures |Correct(f, master, reading).writes| == |f.writes| + if reading.Some? then 1 else 0
    ensures reading.None? ==> Correct(f, master, reading) == f
  {
  }

  lemma {:induction false} NoRounds(fs: seq<Follower>, f: Follower, s: State)
    requires AllValid(fs) && f.ctl.Valid()
    ensures RawRounds(s, 0) == [] && SingleRun(fs, []) == fs
    ensures LateWrites(s.samples, []) == 0 && Replay(f, s.samples, []) == f
  {
  }

  lemma RawRoundsFit(s: State, k: nat)
    requires (forall j | 0 <= j < |s.workers| :: k <= |s.workers[j].readings|) && k <= |s.samples|
    ensures |RawRounds(s, k)| == k && Fits(RawRounds(s, k), |s.workers|)
  {
  }

  /** One round, for one follower: how the loops, so far `late` writes apart, come out of it. */
  lemma OneRoundDiffers(parallel: Follower, single: Follower, held: u64, sample: Option<u64>,
                        reading: Option<u64>, late: nat)
    requires parallel.ctl.Valid() && single.ctl.Valid()
    requires sample.Some? ==> held == sample.value
    requires |parallel.writes| == |single.writes| + late && (parallel == single <==> late == 0)
    ensures var p := Correct(parallel, held, reading);
            var s := match sample case None => single case Some(m) => Correct(single, m, reading);
            var l := late + if sample.None? && reading.Some? then 1 else 0;
            |p.writes| == |s.writes| + l && (p == s <==> l == 0)
  {
    hide Correct;
    CorrectWrites(parallel, held, reading);
    CorrectWrites(single, held, reading);
  }

  lemma LastRawRound(s: State, k: nat, i: nat)
    requires 0 < k <= |s.samples| && i < |s.workers|
    requires forall j | 0 <= j < |s.workers| :: k <= |s.workers[j].readings|
    ensures var rounds := RawRounds(s, k);
            && |rounds| == k && rounds[..k - 1] == RawRounds(s, k - 1)
            && |rounds[k - 1].readings| == |s.workers|
            && rounds[k - 1].master == s.samples[k - 1]
            && rounds[k - 1].readings[i] == s.workers[i].readings[k - 1]
  {
  }

  lemma {:induction false} LastLateWrite(samples: seq<Option<u64>>, readings: seq<Option<u64>>, k: nat)
    requires 0 < k <= |readings| && k <= |samples|
    ensures LateWrites(samples, readings[..k])
         == LateWrites(samples, readings[..k - 1]) + if samples[k - 1].None? && readings[k - 1].Some? then 1 else 0
  {
    assert readings[..k][..k - 1] == readings[..k - 1];
  }

  /** Where the two loops part, exactly: in a round whose master could not be read the single
      loop skips and the parallel loop corrects against the value it last published, one extra
      write for every follower it can read. They leave a follower alike if and only if there
      was no such round for it. */
  lemma {:induction false} FailedSamplesDiffer(fs: seq<Follower>, s: State, k: nat, i: nat)
    requires AllValid(fs) && |fs| == |s.workers| && i < |fs|
    requires (forall j | 0 <= j < |s.workers| :: k <= |s.workers[j].readings|) && k <= |s.samples|
    ensures var single := SingleRun(fs, RawRounds(s, k))[i];
            var parallel := Replay(fs[i], s.samples, s.workers[i].readings[..k]);
            && |parallel.writes| == |single.writes| + LateWrites(s.samples, s.workers[i].readings[..k])
            && (parallel == single <==> LateWrites(s.samples, s.workers[i].readings[..k]) == 0)
  {
    hide Correct, Held, LateWrites, RawRounds, SingleRun, Replay;
    NoRounds(fs, fs[i], s);
    RawRoundsFit(s, k);
    assert s.workers[i].readings[..0] == [];
    if k > 0 {
      FailedSamplesDiffer(fs, s, k - 1, i);
      var readings := s.workers[i].readings;
      RawRoundsFit(s, k - 1);
      LastRawRound(s, k, i);
      LastSingle(fs, RawRounds(s, k), i);
      LastReplay(fs[i], s.samples, readings, k);
      LastLateWrite(s.samples, readings, k);
      OneRoundDiffers(Replay(fs[i], s.samples, readings[..k - 1]), SingleRun(fs, RawRounds(s, k - 1))[i],
                      Held(s.samples[..k]), s.samples[k - 1], readings[k - 1],
                      LateWrites(s.samples, readings[..k - 1]));
    }
  }

  /** So between rounds of any run: on the rounds as they were read the two loops leave a
      follower alike if and only if it was not read in a round whose master read failed. */
  lemma {:induction false} RefinesExactly(fs: seq<Follower>, states: seq<State>, actions: seq<Action>, k: nat, i: nat)
    requires AllValid(fs) && i < |fs|
    requires IsRun(states, actions) && states[0] == Init(fs) && k < |states|
    requires Gathering(states[k])
    ensures var s := states[k];
            && |s.workers| == |fs|
            && (forall j | 0 <= j < |fs| :: |s.workers[j].readings| == Rounds(s)) && Rounds(s) <= |s.samples|
            && (Followers(s)[i] == SingleRun(fs, RawRounds(s, Rounds(s)))[i]
                <==> LateWrites(s.samples, s.workers[i].readings) == 0)
  {
    hide SingleRun, Replay, RawRounds, LateWrites;
    ParallelRefinesSingle(fs, states, actions, k);
    RunInv(fs, states, actions, k);
    var s := states[k];
    FailedSamplesDiffer(fs, s, Rounds(s), i);
    assert s.workers[i].readings[..Rounds(s)] == s.workers[i].readings;
  }
}
