/** Any number of threads, each running any list of the module's operations, interleaved in any
    way: no circular wait, and somebody can always go on until all are done. */
module NoDeadlock {
  import opened Machine
  import opened Locks
  import opened LockOrder

  datatype Thread = Thread(todo: seq<LockAction>, held: set<Lock>)

  ghost function ScriptOf(ops: seq<Operation>): seq<LockAction> {
    if ops == [] then [] else ScriptOf(ops[..|ops| - 1]) + Script(ops[|ops| - 1])
  }

  ghost function Start(threads: seq<seq<Operation>>): seq<Thread> {
    seq(|threads|, i requires 0 <= i < |threads| => Thread(ScriptOf(threads[i]), {}))
  }

  /** A mutex is free when nobody has it. */
  ghost predicate Free(ts: seq<Thread>, l: Lock) {
    forall j | 0 <= j < |ts| :: l !in ts[j].held
  }

  ghost predicate CanStep(ts: seq<Thread>, i: nat) {
    && i < |ts| && ts[i].todo != []
    && (ts[i].todo[0].Acquire? ==> Free(ts, ts[i].todo[0].lock))
  }

  ghost function Stepped(t: Thread): Thread
    requires t.todo != []
  {
    match t.todo[0]
    case Acquire(l) => Thread(t.todo[1..], t.held + {l})
    case Release(l) => Thread(t.todo[1..], t.held - {l})
    case Touch(_) => Thread(t.todo[1..], t.held)
  }

  /** The threads after taking turns as `schedule` says; None if it asks for a blocked one. */
  ghost function Exec(ts: seq<Thread>, schedule: seq<nat>): Option<seq<Thread>>
    decreases |schedule|
  {
    if schedule == [] then Some(ts)
    else if CanStep(ts, schedule[0]) then Exec(ts[schedule[0] := Stepped(ts[schedule[0]])], schedule[1..])
    else None
  }

  // ---------------------------------------------------------------- what every step keeps

  /** Each thread is on course to hold nothing, and no two hold one lock. */
  ghost predicate Orderly(ts: seq<Thread>) {
    && (forall i | 0 <= i < |ts| :: After(ts[i].held, ts[i].todo) == Some({}))
    && forall i, j, l | 0 <= i < j < |ts| && l in ts[i].held :: l !in ts[j].held
  }

  lemma {:induction false} ScriptsNeutral(ops: seq<Operation>)
    ensures Neutral({}, ScriptOf(ops))
  {
    hide Neutral, Script;
    NeutralNothing({});
    if ops != [] {
      ScriptsNeutral(ops[..|ops| - 1]);
      OperationNeutral(ops[|ops| - 1]);
      NeutralBoth({}, ScriptOf(ops[..|ops| - 1]), Script(ops[|ops| - 1]));
    }
  }

  lemma StartOrderly(threads: seq<seq<Operation>>)
    ensures Orderly(Start(threads))
  {
    forall i | 0 <= i < |threads| ensures After({}, Start(threads)[i].todo) == Some({}) {
      ScriptsNeutral(threads[i]);
    }
  }

  lemma StepOrderly(ts: seq<Thread>, i: nat)
    requires Orderly(ts) && CanStep(ts, i)
    ensures Orderly(ts[i := Stepped(ts[i])])
  {
  }

  /** Lock operations still to come. */
  function Work(ts: seq<Thread>): nat {
    if ts == [] then 0 else Work(ts[..|ts| - 1]) + |ts[|ts| - 1].todo|
  }

  lemma {:induction false} StepWorks(ts: seq<Thread>, i: nat)
    requires i < |ts| && ts[i].todo != []
    ensures Work(ts[i := Stepped(ts[i])]) == Work(ts) - 1
  {
    var n := |ts| - 1;
    var r := ts[i := Stepped(ts[i])];
    if i == n {
      assert r[..n] == ts[..n];
    } else {
      assert r[..n] == ts[..n][i := Stepped(ts[i])];
      StepWorks(ts[..n], i);
    }
  }

  lemma {:induction false} NoWorkLeft(ts: seq<Thread>)
    ensures Work(ts) == 0 <==> forall i | 0 <= i < |ts| :: ts[i].todo == []
  {
    if ts != [] {
      var n := |ts| - 1;
      NoWorkLeft(ts[..n]);
      assert forall i | 0 <= i < n :: ts[..n][i] == ts[i];
    }
  }

  lemma {:induction false} ExecOrderly(ts: seq<Thread>, schedule: seq<nat>)
    requires Orderly(ts) && Exec(ts, schedule).Some?
    ensures var r := Exec(ts, schedule).value;
            Orderly(r) && |r| == |ts| && Work(r) == Work(ts) - |schedule|
    decreases |schedule|
  {
    hide Orderly, Stepped;
    if schedule != [] {
      StepOrderly(ts, schedule[0]);
      StepWorks(ts, schedule[0]);
      ExecOrderly(ts[schedule[0] := Stepped(ts[schedule[0]])], schedule[1..]);
    }
  }

  // ---------------------------------------------------------------- who waits for whom

  /** Thread `i` is about to take a lock that thread `j` has. */
  ghost predicate WaitsFor(ts: seq<Thread>, i: nat, j: nat) {
    && i < |ts| && j < |ts|
    && ts[i].todo != [] && ts[i].todo[0].Acquire?
    && ts[i].todo[0].lock in ts[j].held
  }

  /** Along a wait the rank of the lock wanted goes up: the holder wants, if anything, a higher
      one than the one it has. */
  lemma WaitClimbs(ts: seq<Thread>, i: nat, j: nat)
    requires Orderly(ts) && WaitsFor(ts, i, j)
    ensures ts[j].todo != []
    ensures ts[j].todo[0].Acquire? ==> Rank(ts[j].todo[0].lock) > Rank(ts[i].todo[0].lock)
  {
    assert After(ts[j].held, ts[j].todo) == Some({});
    assert ts[j].held != {};
  }

  /** A chain of waits, each thread for the next. */
  ghost predicate Chain(ts: seq<Thread>, c: seq<nat>) {
    |c| > 1 && forall k | 0 <= k < |c| - 1 :: WaitsFor(ts, c[k], c[k + 1])
  }

  lemma {:induction false} ChainClimbs(ts: seq<Thread>, c: seq<nat>)
    requires Orderly(ts) && Chain(ts, c)
    ensures var last := c[|c| - 1];
            && WaitsFor(ts, c[0], c[1])
            && last < |ts| && ts[last].todo != []
            && (ts[last].todo[0].Acquire? ==> Rank(ts[last].todo[0].lock) > Rank(ts[c[0]].todo[0].lock))
    decreases |c|
  {
    hide Orderly;
    var n := |c|;
    assert WaitsFor(ts, c[n - 2], c[n - 1]);
    WaitClimbs(ts, c[n - 2], c[n - 1]);
    if n > 2 {
      var init := c[..n - 1];
      assert forall k | 0 <= k < n - 2 :: WaitsFor(ts, init[k], init[k + 1]) by {
        forall k | 0 <= k < n - 2 ensures WaitsFor(ts, init[k], init[k + 1]) {
          assert WaitsFor(ts, c[k], c[k + 1]);
        }
      }
      ChainClimbs(ts, init);
    }
  }

  /** Following waits from a thread with work leads, within as many waits as there are ranks
      left, to a thread that can go on. */
  lemma {:induction false} SomebodyCan(ts: seq<Thread>, i: nat) returns (j: nat)
    requires Orderly(ts) && i < |ts| && ts[i].todo != []
    ensures CanStep(ts, j)
    decreases if ts[i].todo[0].Acquire? then 4 - Rank(ts[i].todo[0].lock) else 0
  {
    hide Orderly;
    j := i;
    if !CanStep(ts, i) {
      var k: nat :| k < |ts| && ts[i].todo[0].lock in ts[k].held;
      assert WaitsFor(ts, i, k);
      WaitClimbs(ts, i, k);
      j := SomebodyCan(ts, k);
    }
  }

  /** Whatever operations any number of threads run, and however they are interleaved: no chain
      of waits closes on itself, no lock is held twice, each turn uses up one lock operation,
      and while any is left some thread can take its turn. */
  lemma NeverDeadlocks(threads: seq<seq<Operation>>, schedule: seq<nat>)
    requires Exec(Start(threads), schedule).Some?
    ensures var ts := Exec(Start(threads), schedule).value;
            && (forall c | Chain(ts, c) :: c[0] != c[|c| - 1])
            && (forall i, j, l | 0 <= i < j < |ts| && l in ts[i].held :: l !in ts[j].held)
            && |schedule| + Work(ts) == Work(Start(threads))
            && (Work(ts) > 0 ==> exists j: nat :: CanStep(ts, j))
            && (Work(ts) == 0 ==> forall i | 0 <= i < |ts| :: ts[i] == Thread([], {}))
  {
    hide CanStep, Exec, Start, Work;
    StartOrderly(threads);
    ExecOrderly(Start(threads), schedule);
    var ts := Exec(Start(threads), schedule).value;
    forall c | Chain(ts, c) ensures c[0] != c[|c| - 1] {
      NoCircle(ts, c);
    }
    NoWorkLeft(ts);
    if Work(ts) > 0 {
      var i: nat :| i < |ts| && ts[i].todo != [];
      var j := SomebodyCan(ts, i);
    }
    forall i | 0 <= i < |ts| && ts[i].todo == [] ensures ts[i].held == {} {
      assert After(ts[i].held, ts[i].todo) == Some({});
    }
  }

  lemma NoCircle(ts: seq<Thread>, c: seq<nat>)
    requires Orderly(ts) && Chain(ts, c)
    ensures |c| > 1 && c[0] != c[|c| - 1]
  {
    hide Orderly;
    ChainClimbs(ts, c);
    assert WaitsFor(ts, c[0], c[1]);
  }
}
