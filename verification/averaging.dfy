/**
 `averageExperiment(experimentDataDict, tMax)`: the per-step mean, across
 trials, of each `[U, A, B]` component of the snapshot series that
 `repeatedExperiments` collected. The trials are numbered `0 .. N-1`, where
 `N` is the number of trials.
 */
module Averaging {
  import opened Types

  /** The sum of component `s` of snapshot `t` over trials `0 .. k-1`. */
  function TrialSum(d: map<nat, seq<Counts>>, k: nat, t: nat, s: State): int
    requires forall n: nat :: n < k ==> n in d && t < |d[n]|
  {
    if k == 0 then 0 else TrialSum(d, k - 1, t, s) + d[k - 1][t].Of(s)
  }

  /** Trials `0 .. N-1` are all present and each series has at least `steps` snapshots. */
  predicate Complete(d: map<nat, seq<Counts>>, steps: nat) {
    forall n: nat :: n < |d| ==> n in d && steps <= |d[n]|
  }

  /** The mean over the trials of the snapshots at step `t`. */
  function MeanAt(d: map<nat, seq<Counts>>, t: nat): (m: Mean)
    requires |d| > 0
    requires forall n: nat :: n < |d| ==> n in d && t < |d[n]|
  {
    var k := |d| as real;
    Mean(TrialSum(d, |d|, t, Undecided) as real / k,
         TrialSum(d, |d|, t, InfluenceA) as real / k,
         TrialSum(d, |d|, t, InfluenceB) as real / k)
  }

  /** The means of steps `0 .. steps-1`. */
  function AverageSteps(d: map<nat, seq<Counts>>, steps: nat): (r: seq<Mean>)
    requires steps > 0 ==> Complete(d, steps)
    requires |d| > 0 || steps == 0
    ensures |r| == steps
    ensures forall t, s :: 0 <= t < steps ==> r[t].Of(s) == TrialSum(d, |d|, t, s) as real / |d| as real
  {
    seq(steps, t requires 0 <= t < steps => MeanAt(d, t))
  }

  /**
   `averageExperiment(experimentDataDict, tMax)`: the means of steps
   `0 .. tMax-1` only. Unless `tMax` is zero, when it reads nothing and
   returns no means, it needs at least one trial (otherwise the source
   divides by zero), every trial numbered below the trial count and every
   series at least `tMax` long.
   */
  function AverageExperiment(d: map<nat, seq<Counts>>, tMax: nat): (r: seq<Mean>)
    requires tMax > 0 ==> Complete(d, tMax)
    requires |d| > 0 || tMax == 0
    ensures |r| == tMax
    ensures forall t, s :: 0 <= t < tMax ==> r[t].Of(s) == TrialSum(d, |d|, t, s) as real / |d| as real
  {
    AverageSteps(d, tMax)
  }

  /** The means of all `tMax + 1` snapshots of a run, including the last one. */
  function AverageEverySnapshot(d: map<nat, seq<Counts>>, tMax: nat): (r: seq<Mean>)
    requires Complete(d, tMax + 1)
    requires |d| > 0
    ensures |r| == tMax + 1
    ensures forall t, s :: 0 <= t <= tMax ==> r[t].Of(s) == TrialSum(d, |d|, t, s) as real / |d| as real
  {
    AverageSteps(d, tMax + 1)
  }

  /** When every trial's snapshot `t` sums to `total`, the three trial sums together are `k * total`. */
  lemma {:induction false} TrialSumTotal(d: map<nat, seq<Counts>>, k: nat, t: nat, total: int)
    requires forall n: nat :: n < k ==> n in d && t < |d[n]| && d[n][t].Total() == total
    ensures TrialSum(d, k, t, Undecided) + TrialSum(d, k, t, InfluenceA) + TrialSum(d, k, t, InfluenceB) == k * total
  {
    if k > 0 {
      TrialSumTotal(d, k - 1, t, total);
    }
  }

  /** When every trial's snapshot `t` has `x` in component `s`, the trial sum is `k * x`. */
  lemma {:induction false} TrialSumConstant(d: map<nat, seq<Counts>>, k: nat, t: nat, s: State, x: int)
    requires forall n: nat :: n < k ==> n in d && t < |d[n]| && d[n][t].Of(s) == x
    ensures TrialSum(d, k, t, s) == k * x
  {
    if k > 0 {
      TrialSumConstant(d, k - 1, t, s, x);
    }
  }

  lemma DivideSum(a: int, b: int, c: int, k: nat, total: int)
    requires k > 0
    requires a + b + c == k * total
    ensures a as real / k as real + b as real / k as real + c as real / k as real == total as real
  {
    var kr := k as real;
    calc {
      a as real / kr + b as real / kr + c as real / kr;
      (a + b + c) as real / kr;
      (k * total) as real / kr;
      { assert (k * total) as real == kr * total as real; }
      total as real;
    }
  }

  lemma DivideConstant(k: nat, x: int)
    requires k > 0
    ensures (k * x) as real / k as real == x as real
  {
    assert (k * x) as real == k as real * x as real;
  }

  /**
   When every trial conserves the node count `total` at every step, so does
   every averaged entry: its three means add up to `total`.
   */
  lemma AverageConserves(d: map<nat, seq<Counts>>, tMax: nat, total: int)
    requires tMax > 0 ==> Complete(d, tMax)
    requires |d| > 0 || tMax == 0
    requires forall n: nat, t :: n < |d| && 0 <= t < tMax ==> d[n][t].Total() == total
    ensures forall t :: 0 <= t < |AverageExperiment(d, tMax)| ==> AverageExperiment(d, tMax)[t].Total() == total as real
  {
    var r := AverageExperiment(d, tMax);
    forall t | 0 <= t < |r|
      ensures r[t].Total() == total as real
    {
      TrialSumTotal(d, |d|, t, total);
      DivideSum(TrialSum(d, |d|, t, Undecided), TrialSum(d, |d|, t, InfluenceA), TrialSum(d, |d|, t, InfluenceB), |d|, total);
    }
  }

  /** When all trials have the same series, the average is that series, cut to its first `tMax` snapshots. */
  lemma AverageOfIdentical(d: map<nat, seq<Counts>>, tMax: nat, series: seq<Counts>)
    requires |d| > 0
    requires tMax <= |series|
    requires forall n: nat :: n < |d| ==> n in d && d[n] == series
    ensures forall t, s :: 0 <= t < tMax ==> AverageExperiment(d, tMax)[t].Of(s) == series[t].Of(s) as real
  {
    var r := AverageExperiment(d, tMax);
    forall t, s | 0 <= t < tMax
      ensures r[t].Of(s) == series[t].Of(s) as real
    {
      TrialSumConstant(d, |d|, t, s, series[t].Of(s));
      DivideConstant(|d|, series[t].Of(s));
    }
  }

  /** Two trial series of three snapshots each, as two runs with `tMax = 2` produce them. */
  function TwoTrials(): (d: map<nat, seq<Counts>>)
    ensures |d| == 2
  {
    var d := map[0 := [Counts(8, 1, 1), Counts(7, 2, 1), Counts(6, 3, 1)],
                 1 := [Counts(8, 1, 1), Counts(6, 3, 1), Counts(5, 4, 1)]];
    assert d.Keys == {0, 1};
    d
  }

  /** Over two trials, a trial sum is the sum of the two trials' components. */
  lemma TrialSumTwo(d: map<nat, seq<Counts>>, t: nat, s: State)
    requires 0 in d && 1 in d && t < |d[0]| && t < |d[1]|
    ensures TrialSum(d, 2, t, s) == d[0][t].Of(s) + d[1][t].Of(s)
  {
    assert TrialSum(d, 1, t, s) == d[0][t].Of(s);
  }

  /** The trial sums of the two trials, step by step. */
  lemma TwoTrialSums()
    ensures Complete(TwoTrials(), 3)
    ensures TrialSum(TwoTrials(), 2, 0, Undecided) == 16 && TrialSum(TwoTrials(), 2, 0, InfluenceA) == 2 && TrialSum(TwoTrials(), 2, 0, InfluenceB) == 2
    ensures TrialSum(TwoTrials(), 2, 1, Undecided) == 13 && TrialSum(TwoTrials(), 2, 1, InfluenceA) == 5 && TrialSum(TwoTrials(), 2, 1, InfluenceB) == 2
    ensures TrialSum(TwoTrials(), 2, 2, Undecided) == 11 && TrialSum(TwoTrials(), 2, 2, InfluenceA) == 7 && TrialSum(TwoTrials(), 2, 2, InfluenceB) == 2
  {
    var d := TwoTrials();
    forall t: nat, s | t < 3
      ensures TrialSum(d, 2, t, s) == d[0][t].Of(s) + d[1][t].Of(s)
    {
      TrialSumTwo(d, t, s);
    }
  }

  /** A mean is determined by its three components. */
  lemma MeanByComponents(m: Mean, u: real, a: real, b: real)
    requires m.Of(Undecided) == u && m.Of(InfluenceA) == a && m.Of(InfluenceB) == b
    ensures m == Mean(u, a, b)
  {
  }

  /**
   Averaging the two trials with `tMax = 2` gives the means of steps 0 and 1
   only; the mean `[5.5, 3.5, 1]` of the final snapshots is not part of it.
   */
  lemma TwoTrialAverage()
    ensures AverageExperiment(TwoTrials(), 2) == [Mean(8.0, 1.0, 1.0), Mean(6.5, 2.5, 1.0)]
  {
    TwoTrialSums();
    var r := AverageExperiment(TwoTrials(), 2);
    MeanByComponents(r[0], 8.0, 1.0, 1.0);
    MeanByComponents(r[1], 6.5, 2.5, 1.0);
  }

  /** Averaging every snapshot of the two trials ends with the mean `[5.5, 3.5, 1]` of the final snapshots. */
  lemma TwoTrialAverageEverySnapshot()
    ensures AverageEverySnapshot(TwoTrials(), 2) == [Mean(8.0, 1.0, 1.0), Mean(6.5, 2.5, 1.0), Mean(5.5, 3.5, 1.0)]
  {
    TwoTrialSums();
    var r := AverageEverySnapshot(TwoTrials(), 2);
    MeanByComponents(r[0], 8.0, 1.0, 1.0);
    MeanByComponents(r[1], 6.5, 2.5, 1.0);
    MeanByComponents(r[2], 5.5, 3.5, 1.0);
  }
}
