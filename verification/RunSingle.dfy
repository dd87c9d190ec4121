/** The single-threaded sync loop (threading.rs:48-99). The outcomes of the reads are inputs:
    one round is one pass of the loop while RUNNING stays true. */
module RunSingle {
  import opened Machine
  import opened Control

  /** What one pass reads: the master, then every follower (`None` for a failed read). */
  datatype Round = Round(master: Option<u64>, readings: seq<Option<u64>>)

  ghost predicate AllValid(fs: seq<Follower>) {
    forall i | 0 <= i < |fs| :: fs[i].ctl.Valid()
  }

  ghost predicate Fits(rounds: seq<Round>, n: nat) {
    forall i | 0 <= i < |rounds| :: |rounds[i].readings| == n
  }

  /** Every follower corrected once against the same master value. */
  ghost function CorrectAll(fs: seq<Follower>, master: u64, readings: seq<Option<u64>>): (r: seq<Follower>)
    requires AllValid(fs) && |readings| == |fs|
    ensures |r| == |fs| && AllValid(r)
    ensures forall i | 0 <= i < |fs| :: r[i] == Correct(fs[i], master, readings[i])
  {
    if fs == [] then [] else
      var n := |fs| - 1;
      CorrectValid(fs[n], master, readings[n]);
      CorrectAll(fs[..n], master, readings[..n]) + [Correct(fs[n], master, readings[n])]
  }

  /** The whole run; a round whose master read failed is skipped. */
  ghost function SingleRun(fs: seq<Follower>, rounds: seq<Round>): (r: seq<Follower>)
    requires AllValid(fs) && Fits(rounds, |fs|)
    ensures |r| == |fs| && AllValid(r)
  {
    if rounds == [] then fs else
      var n := |rounds| - 1;
      var before := SingleRun(fs, rounds[..n]);
      match rounds[n].master
      case None => before
      case Some(m) => CorrectAll(before, m, rounds[n].readings)
  }

  /** How many rounds reached their master. */
  ghost function Successes(rounds: seq<Round>): nat {
    if rounds == [] then 0 else
      Successes(rounds[..|rounds| - 1]) + if rounds[|rounds| - 1].master.Some? then 1 else 0
  }

  ghost function Reached(rounds: seq<Round>): set<nat> {
    set k: nat | k < |rounds| && rounds[k].master.Some?
  }

  lemma {:induction false} SuccessesCount(rounds: seq<Round>)
    ensures Successes(rounds) == |Reached(rounds)|
  {
    if rounds == [] {
      assert Reached(rounds) == {};
    } else {
      var n := |rounds| - 1;
      SuccessesCount(rounds[..n]);
      var before := Reached(rounds[..n]);
      assert Reached(rounds) == if rounds[n].master.Some? then before + {n} else before;
    }
  }

  // ---------------------------------------------------------------- the loop itself

  /** The writable side of a follower's TSF file. */
  class TsfSink {
    var writes: seq<u64>
    constructor ()
      ensures writes == []
    {
      writes := [];
    }
  }

  ghost function Footprint(sinks: seq<TsfSink>, controllers: seq<Controller>): set<object> {
    (set s: object | s in sinks) + (set c: Controller, o: object | c in controllers && o in c.Repr() :: o)
  }

  /** No two followers share a file or a filter. */
  ghost predicate Separate(sinks: seq<TsfSink>, controllers: seq<Controller>) {
    && |sinks| == |controllers|
    && (forall i, j | 0 <= i < j < |sinks| :: sinks[i] != sinks[j])
    && (forall i, j | 0 <= i < j < |sinks| :: controllers[i].Repr() !! controllers[j].Repr())
  }

  ghost function StateOf(sink: TsfSink, controller: Controller): Follower
    reads sink, controller.Repr()
  {
    Follower(controller.State(), sink.writes)
  }

  ghost function States(sinks: seq<TsfSink>, controllers: seq<Controller>): (r: seq<Follower>)
    requires |sinks| == |controllers|
    reads Footprint(sinks, controllers)
    ensures |r| == |sinks|
    ensures forall i | 0 <= i < |sinks| :: r[i] == StateOf(sinks[i], controllers[i])
  {
    seq(|sinks|, i requires 0 <= i < |sinks| reads Footprint(sinks, controllers) => StateOf(sinks[i], controllers[i]))
  }

  method CorrectFollower(sink: TsfSink, controller: Controller, master: u64, reading: Option<u64>)
    returns (done: Option<(i64, i64)>)
    requires controller.State().Valid()
    modifies sink, controller.Repr()
    ensures StateOf(sink, controller) == Correct(old(StateOf(sink, controller)), master, reading)
    ensures done == match reading
                    case None => None
                    case Some(tsf) =>
                      var err := RawError(master, tsf);
                      Some((Decide(old(controller.State()), err).1, err))
  {
    if reading.None? {
      return None;
    }
    var step, err := controller.Apply(master, reading.value);
    sink.writes := sink.writes + [WrapU(WrapS(reading.value) + step)];
    done := Some((step, err));
  }

  lemma NoRounds(fs: seq<Follower>)
    requires AllValid(fs)
    ensures SingleRun(fs, []) == fs && Successes([]) == 0
  {
  }

  lemma {:induction false} OneMoreRound(fs: seq<Follower>, rounds: seq<Round>, r: nat)
    requires AllValid(fs) && Fits(rounds, |fs|) && r < |rounds|
    ensures var before := SingleRun(fs, rounds[..r]);
            SingleRun(fs, rounds[..r + 1]) == match rounds[r].master
                                              case None => before
                                              case Some(m) => CorrectAll(before, m, rounds[r].readings)
    ensures Successes(rounds[..r + 1]) == Successes(rounds[..r]) + if rounds[r].master.Some? then 1 else 0
  {
    hide CorrectAll;
    assert rounds[..r + 1][..r] == rounds[..r];
  }

  /** Round-robin over the followers, as long as rounds come. */
  method Run(sinks: seq<TsfSink>, controllers: seq<Controller>, rounds: seq<Round>)
    returns (cycle: nat)
    requires Separate(sinks, controllers) && Fits(rounds, |sinks|)
    requires AllValid(States(sinks, controllers))
    modifies Footprint(sinks, controllers)
    ensures States(sinks, controllers) == SingleRun(old(States(sinks, controllers)), rounds)
    ensures cycle == Successes(rounds)
  {
    hide CorrectAll, StateOf, SingleRun, Successes;
    cycle := 0;
    ghost var start := States(sinks, controllers);
    NoRounds(start);
    var r := 0;
    while r < |rounds|
      invariant 0 <= r <= |rounds|
      invariant States(sinks, controllers) == SingleRun(start, rounds[..r])
      invariant cycle == Successes(rounds[..r])
    {
      OneMoreRound(start, rounds, r);
      if rounds[r].master.Some? {
        Sweep(sinks, controllers, rounds[r].master.value, rounds[r].readings);
        cycle := cycle + 1;
      }
      r := r + 1;
    }
    assert rounds[..r] == rounds;
  }

  /** The inner loop: one correction each, in order. */
  method Sweep(sinks: seq<TsfSink>, controllers: seq<Controller>, master: u64, readings: seq<Option<u64>>)
    requires Separate(sinks, controllers) && |readings| == |sinks|
    requires AllValid(States(sinks, controllers))
    modifies Footprint(sinks, controllers)
    ensures States(sinks, controllers) == CorrectAll(old(States(sinks, controllers)), master, readings)
  {
    for i := 0 to |sinks|
      invariant forall k | 0 <= k < i ::
                  StateOf(sinks[k], controllers[k])
                  == Correct(old(States(sinks, controllers))[k], master, readings[k])
      invariant forall k | i <= k < |sinks| ::
                  StateOf(sinks[k], controllers[k]) == old(States(sinks, controllers))[k]
    {
      label before:
      assert StateOf(sinks[i], controllers[i]).ctl.Valid();
      var done := CorrectFollower(sinks[i], controllers[i], master, readings[i]);
      forall k | 0 <= k < |sinks| && k != i
        ensures StateOf(sinks[k], controllers[k]) == old@before(StateOf(sinks[k], controllers[k]))
      {
        assert sinks[k] != sinks[i] && controllers[k].Repr() !! controllers[i].Repr();
      }
    }
  }
}
