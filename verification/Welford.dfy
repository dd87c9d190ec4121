/** The online statistics of the debugfs tool (stats.rs), over exact reals. The square root in
    `rms` appears only as its square. */
module Welford {
  import opened Machine

  /** One observation: an error and the step taken against it. */
  type Observation = (i64, i64)

  datatype Stats = Stats(n: nat, mean: real, m2: real, maxAbsErr: i64, maxAbsStep: i64)

  const EMPTY := Stats(0, 0.0, 0.0, 0, 0)

  /** `unsigned_abs() as i64`: the one number without a positive counterpart stays negative. */
  function AbsAsI64(x: i64): i64 {
    if x == I64_MIN then x else Abs(x)
  }

  function Larger(a: i64, b: i64): i64 {
    if b > a then b else a
  }

  function Updated(s: Stats, o: Observation): Stats {
    var n, x := s.n + 1, o.0 as real;
    var delta := x - s.mean;
    var mean := s.mean + delta / n as real;
    var delta2 := x - mean;
    Stats(n, mean, s.m2 + delta * delta2,
          Larger(s.maxAbsErr, AbsAsI64(o.0)), Larger(s.maxAbsStep, AbsAsI64(o.1)))
  }

  function StatsOf(obs: seq<Observation>): Stats {
    if obs == [] then EMPTY else Updated(StatsOf(obs[..|obs| - 1]), obs[|obs| - 1])
  }

  class WelfordStats {
    var n: nat
    var mean: real
    var m2: real
    var maxAbsErr: i64
    var maxAbsStep: i64

    function State(): Stats
      reads this
    {
      Stats(n, mean, m2, maxAbsErr, maxAbsStep)
    }

    constructor ()
      ensures State() == EMPTY
    {
      n, mean, m2, maxAbsErr, maxAbsStep := 0, 0.0, 0.0, 0, 0;
    }

    method Update(err: i64, step: i64)
      modifies this
      ensures State() == Updated(old(State()), (err, step))
    {
      ghost var next := Updated(State(), (err, step));
      n := n + 1;
      var x := err as real;
      var delta := x - mean;
      mean := mean + delta / n as real;
      var delta2 := x - mean;
      m2 := m2 + delta * delta2;
      assert n == next.n && mean == next.mean && m2 == next.m2;
      var absErr := AbsAsI64(err);
      if absErr > maxAbsErr {
        maxAbsErr := absErr;
      }
      var absStep := AbsAsI64(step);
      if absStep > maxAbsStep {
        maxAbsStep := absStep;
      }
    }

    /** The square of what `rms` returns. */
    method RmsSquared() returns (r: real)
      ensures r == RmsSquaredOf(State())
    {
      if n == 0 {
        return 0.0;
      }
      r := m2 / n as real;
    }

    method PrintAndReset() returns (rmsSquared: real)
      modifies this
      ensures rmsSquared == RmsSquaredOf(old(State())) && State() == EMPTY
    {
      rmsSquared := RmsSquared();
      n, mean, m2, maxAbsErr, maxAbsStep := 0, 0.0, 0.0, 0, 0;
    }
  }

  function RmsSquaredOf(s: Stats): real {
    if s.n == 0 then 0.0 else s.m2 / s.n as real
  }

  // ---------------------------------------------------------------- what it should compute

  function Sum(obs: seq<Observation>): real {
    if obs == [] then 0.0 else Sum(obs[..|obs| - 1]) + obs[|obs| - 1].0 as real
  }

  function SumOfSquares(obs: seq<Observation>): real {
    if obs == [] then 0.0 else
      SumOfSquares(obs[..|obs| - 1]) + obs[|obs| - 1].0 as real * obs[|obs| - 1].0 as real
  }

  /** The sum of squared distances from `c`. */
  function SquaredDeviations(obs: seq<Observation>, c: real): real {
    if obs == [] then 0.0 else
      var d := obs[|obs| - 1].0 as real - c;
      SquaredDeviations(obs[..|obs| - 1], c) + d * d
  }

  // ---------------------------------------------------------------- and does

  lemma UpdateMoments(s: Stats, o: Observation)
    ensures var t, x := Updated(s, o), o.0 as real;
            && t.n == s.n + 1
            && t.mean * t.n as real == s.mean * s.n as real + x
            && t.n as real * (t.mean * t.mean) + t.m2 == s.n as real * (s.mean * s.mean) + s.m2 + x * x
  {
  }

  lemma {:induction false} Moments(obs: seq<Observation>)
    ensures var s := StatsOf(obs);
            && s.n == |obs|
            && s.mean * s.n as real == Sum(obs)
            && s.n as real * (s.mean * s.mean) + s.m2 == SumOfSquares(obs)
  {
    hide Updated;
    if obs != [] {
      Moments(obs[..|obs| - 1]);
      UpdateMoments(StatsOf(obs[..|obs| - 1]), obs[|obs| - 1]);
    }
  }

  /** What the squared deviations from `c` come to, given the two sums. */
  predicate Expands(dev: real, squares: real, sum: real, c: real, n: real) {
    dev == squares - 2.0 * (c * sum) + n * (c * c) && dev >= 0.0
  }

  lemma {:induction false} DeviationsExpand(obs: seq<Observation>, c: real)
    ensures Expands(SquaredDeviations(obs, c), SumOfSquares(obs), Sum(obs), c, |obs| as real)
  {
    if obs == [] {
      NothingToDeviate(c);
    } else {
      hide Sum, SumOfSquares, SquaredDeviations, Expands;
      var init := obs[..|obs| - 1];
      var x := LastTerms(obs, c);
      DeviationsExpand(init, c);
      var n := |init| as real;
      assert |obs| as real == n + 1.0;
      DeviationStep(x, c, Sum(init), SumOfSquares(init), n, SquaredDeviations(init, c));
    }
  }

  lemma NothingToDeviate(c: real)
    ensures Expands(SquaredDeviations([], c), SumOfSquares([]), Sum([]), c, 0.0)
  {
  }

  /** The three sums, one observation further. */
  lemma LastTerms(obs: seq<Observation>, c: real) returns (x: real)
    requires obs != []
    ensures var init := obs[..|obs| - 1];
            && Sum(obs) == Sum(init) + x
            && SumOfSquares(obs) == SumOfSquares(init) + x * x
            && SquaredDeviations(obs, c) == SquaredDeviations(init, c) + (x - c) * (x - c)
  {
    x := obs[|obs| - 1].0 as real;
  }

  lemma DeviationStep(x: real, c: real, sum: real, squares: real, n: real, dev: real)
    requires Expands(dev, squares, sum, c, n)
    ensures Expands(dev + (x - c) * (x - c), squares + x * x, sum + x, c, n + 1.0)
  {
    assert (x - c) * (x - c) >= 0.0;
    assert (x - c) * (x - c) == x * x - 2.0 * (c * x) + c * c;
    assert 2.0 * (c * (sum + x)) == 2.0 * (c * sum) + 2.0 * (c * x);
    assert (n + 1.0) * (c * c) == n * (c * c) + c * c;
  }

  /** `m2` is the sum of squared deviations from the mean, and the mean is the mean. */
  lemma WelfordRight(obs: seq<Observation>)
    ensures var s := StatsOf(obs);
            && s.mean * |obs| as real == Sum(obs)
            && s.m2 == SquaredDeviations(obs, s.mean) >= 0.0
  {
    hide StatsOf, Sum, SumOfSquares, SquaredDeviations;
    Moments(obs);
    var s := StatsOf(obs);
    DeviationsExpand(obs, s.mean);
    CentreOnMean(s.mean, |obs| as real, Sum(obs), SumOfSquares(obs), s.m2);
  }

  lemma CentreOnMean(c: real, n: real, sum: real, squares: real, m2: real)
    requires c * n == sum && n * (c * c) + m2 == squares
    ensures m2 == squares - 2.0 * (c * sum) + n * (c * c)
  {
    assert c * sum == c * (c * n) == n * (c * c);
  }

  /** What `rms` returns is the standard deviation: its square falls short of the mean square
      by exactly the square of the mean, so it is the root mean square only when the mean is
      zero, and below it otherwise. */
  lemma RmsIsStandardDeviation(obs: seq<Observation>)
    requires obs != []
    ensures var s, n := StatsOf(obs), |obs| as real;
            && RmsSquaredOf(s) == SquaredDeviations(obs, s.mean) / n
            && RmsSquaredOf(s) + s.mean * s.mean == SumOfSquares(obs) / n
            && RmsSquaredOf(s) <= SumOfSquares(obs) / n
            && (RmsSquaredOf(s) == SumOfSquares(obs) / n <==> Sum(obs) == 0.0)
  {
    hide StatsOf, Sum, SumOfSquares, SquaredDeviations;
    Moments(obs);
    WelfordRight(obs);
    var s, n := StatsOf(obs), |obs| as real;
    assert s.m2 == SumOfSquares(obs) - n * (s.mean * s.mean);
    MeanSquare(s.m2, SumOfSquares(obs), n, s.mean);
    ZeroMean(s.mean, n);
  }

  lemma MeanSquare(m2: real, sq: real, n: real, mean: real)
    requires n > 0.0 && m2 == sq - n * (mean * mean)
    ensures m2 / n + mean * mean == sq / n && mean * mean >= 0.0
  {
    assert (n * (mean * mean)) / n == mean * mean;
  }

  lemma ZeroMean(mean: real, n: real)
    requires n > 0.0
    ensures mean * mean == 0.0 <==> mean * n == 0.0
  {
  }

  /** One observation is no deviation at all, however far it is from zero. */
  lemma RmsOfOne()
    ensures RmsSquaredOf(StatsOf([(1, 0)])) == 0.0 && SumOfSquares([(1, 0)]) == 1.0
  {
    var obs: seq<Observation> := [(1, 0)];
    assert obs[..0] == [];
    assert StatsOf(obs) == Updated(EMPTY, (1, 0));
  }

  // ---------------------------------------------------------------- order does not matter

  ghost function Remove(obs: seq<Observation>, i: nat): seq<Observation>
    requires i < |obs|
  {
    obs[..i] + obs[i + 1..]
  }

  /** Taking an observation out of a sum, wherever it stands. */
  lemma {:induction false} SumRemove(obs: seq<Observation>, i: nat)
    requires i < |obs|
    ensures Sum(obs) == Sum(Remove(obs, i)) + obs[i].0 as real
    ensures SumOfSquares(obs) == SumOfSquares(Remove(obs, i)) + obs[i].0 as real * obs[i].0 as real
  {
    var n := |obs| - 1;
    if i == n {
      assert Remove(obs, i) == obs[..n];
    } else {
      SumRemove(obs[..n], i);
      var r := Remove(obs, i);
      assert r[..|r| - 1] == Remove(obs[..n], i) && r[|r| - 1] == obs[n];
    }
  }

  /** Where the last observation of one list stands in a reordering of it. */
  lemma FindLast(a: seq<Observation>, b: seq<Observation>) returns (i: nat)
    requires a != [] && multiset(a) == multiset(b)
    ensures i < |b| && b[i] == a[|a| - 1]
    ensures multiset(a[..|a| - 1]) == multiset(Remove(b, i))
  {
    hide Sum, SumOfSquares;
    var n := |a| - 1;
    assert a[n] in multiset(b);
    i :| 0 <= i < |b| && b[i] == a[n];
    assert a == a[..n] + [a[n]];
    assert b == b[..i] + [b[i]] + b[i + 1..];
    assert multiset(a[..n]) == multiset(a) - multiset{a[n]};
    assert multiset(Remove(b, i)) == multiset(b) - multiset{b[i]};
  }

  lemma {:induction false} SumsOfPermutation(a: seq<Observation>, b: seq<Observation>)
    requires multiset(a) == multiset(b)
    ensures |a| == |b| && Sum(a) == Sum(b) && SumOfSquares(a) == SumOfSquares(b)
    decreases |a|
  {
    assert |multiset(a)| == |a| && |multiset(b)| == |b|;
    if a != [] {
      var i := FindLast(a, b);
      SumsOfPermutation(a[..|a| - 1], Remove(b, i));
      SumRemove(b, i);
      assert Sum(a) == Sum(a[..|a| - 1]) + b[i].0 as real;
    }
  }

  /** The maxima, by what they bound and what attains them. The number with no positive
      counterpart never counts. */
  lemma {:induction false} MaximaRight(obs: seq<Observation>)
    ensures var s := StatsOf(obs);
            && s.maxAbsErr >= 0 && s.maxAbsStep >= 0
            && (forall o | o in obs :: AbsAsI64(o.0) <= s.maxAbsErr && AbsAsI64(o.1) <= s.maxAbsStep)
            && (s.maxAbsErr > 0 ==> exists o | o in obs :: AbsAsI64(o.0) == s.maxAbsErr)
            && (s.maxAbsStep > 0 ==> exists o | o in obs :: AbsAsI64(o.1) == s.maxAbsStep)
  {
    if obs != [] {
      var n := |obs| - 1;
      MaximaRight(obs[..n]);
      assert obs == obs[..n] + [obs[n]];
      assert obs[n] in obs;
    }
  }

  /** The whole accumulator depends on the observations, not on their order. */
  lemma OrderDoesNotMatter(a: seq<Observation>, b: seq<Observation>)
    requires multiset(a) == multiset(b)
    ensures StatsOf(a) == StatsOf(b)
  {
    hide StatsOf, Sum, SumOfSquares;
    Moments(a);
    Moments(b);
    SumsOfPermutation(a, b);
    SameMaxima(a, b);
    if a != [] {
      var s, t, n := StatsOf(a), StatsOf(b), |a| as real;
      SameMean(s.mean, t.mean, n);
      SameSpread(n * (s.mean * s.mean), s.m2, t.m2, SumOfSquares(a));
    }
  }

  lemma SameMaxima(a: seq<Observation>, b: seq<Observation>)
    requires multiset(a) == multiset(b)
    ensures StatsOf(a).maxAbsErr == StatsOf(b).maxAbsErr && StatsOf(a).maxAbsStep == StatsOf(b).maxAbsStep
  {
    hide StatsOf, AbsAsI64;
    MaximaRight(a);
    MaximaRight(b);
    forall o ensures o in a <==> o in b {
      assert o in multiset(a) <==> o in multiset(b);
    }
  }

  lemma SameSpread(share: real, m2: real, m2': real, squares: real)
    requires share + m2 == squares && share + m2' == squares
    ensures m2 == m2'
  {
  }

  lemma SameMean(x: real, y: real, n: real)
    requires n > 0.0 && x * n == y * n
    ensures x == y
  {
    assert (x - y) * n == 0.0;
  }
}
