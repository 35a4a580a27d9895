/**
 The experiment layer: the three seeding modes, each composing the sampler
 with one engine run, and the collection of repeated trials. The sampler's
 `None` is passed on as a missing group, as the source passes it on; reading
 a missing group as a list is Python's `TypeError`, and it happens only where
 the code reads that group: the sampler reads its `exclude` list only for the
 nodes of a non-empty graph, and the engine reads group B only for the nodes
 outside group A.
 */
module Experiments {
  import opened Types
  import opened Engine
  import opened Sampling
  import opened Dynamics
  import opened Averaging

  /** A group of seed nodes as the sampler returns it: a list, or `None`. */
  datatype Group = Listed(nodes: seq<Node>) | Missing {

    /** The nodes of the group; a missing group has none. */
    function Nodes(): seq<Node> {
      if Listed? then nodes else []
    }
  }

  /** A sampled group and the position of the next draw after it. */
  datatype Drawing = Drawing(group: Group, pos: nat)

  /**
   `generateRandomSample(G, sampleSize, exclude)` where `exclude` may itself be
   a missing group: the pool's membership test reads `exclude` once per node,
   so a missing `exclude` fails on any non-empty graph.
   */
  function SampleGroup(g: Graph, size: nat, exclude: Group, rng: Rng, pos: nat, fuel: nat): (r: Result<Drawing>)
    ensures r == Failure(MissingGroup) <==> exclude.Missing? && g.Size() > 0
    ensures r.Failure? ==> r.error == MissingGroup || r.error == SamplerExhausted
    ensures r.Success? ==> (r.value.group.Missing? <==> |NonMembers(exclude.Nodes(), g.Size())| < size)
    ensures r.Success? && r.value.group.Listed? ==> RandomSample(g, r.value.group.nodes, size, exclude.Nodes())
    ensures r.Success? ==> pos <= r.value.pos
    ensures r.Success? && r.value.group.Missing? ==> r.value.pos == pos
    ensures r.Success? && r.value.group.Listed? ==>
      GenerateRandomSample(g, size, exclude.Nodes(), rng, pos, fuel) == Success(Sample(r.value.group.nodes, r.value.pos))
    ensures exclude.Listed? || g.Size() == 0 ==>
      (r == Failure(SamplerExhausted) <==> GenerateRandomSample(g, size, exclude.Nodes(), rng, pos, fuel) == Failure(SamplerExhausted))
    ensures (exclude.Listed? || g.Size() == 0) && |NonMembers(exclude.Nodes(), g.Size())| < size ==> r == Success(Drawing(Missing, pos))
  {
    if exclude.Missing? && g.Size() > 0 then Failure(MissingGroup)
    else
      match GenerateRandomSample(g, size, exclude.Nodes(), rng, pos, fuel)
      case Success(s) => Success(Drawing(Listed(s.nodes), s.pos))
      case Failure(e) => if e == InsufficientPopulation then Success(Drawing(Missing, pos)) else Failure(e)
  }

  /**
   The engine's initial-state test for node `n` reads group A, and reads
   group B only when `n` is not in group A.
   */
  predicate SeedsReadable(groupA: Group, groupB: Group, n: Node) {
    groupA.Listed? && (n in groupA.nodes || groupB.Listed?)
  }

  /**
   `graphModelRun` on groups that may be missing: the run survives exactly
   when no node's initial-state test reads a missing group.
   */
  function RunGroups(g: Graph, tMax: nat, p: real, groupA: Group, groupB: Group, rng: Rng, pos: nat): (r: Result<Run>)
    ensures r.Success? <==> forall n: Node :: n < g.Size() ==> SeedsReadable(groupA, groupB, n)
    ensures r.Failure? ==> r.error == MissingGroup
    ensures r.Success? ==> r.value == GraphModelRun(g, tMax, groupA.Nodes(), groupB.Nodes(), p, rng, pos)
    ensures groupA.Missing? ==> (r.Success? <==> g.Size() == 0)
    ensures groupA.Listed? && groupB.Missing? ==> (r.Success? <==> forall n: Node :: n < g.Size() ==> n in groupA.nodes)
  {
    var run := GraphModelRun(g, tMax, groupA.Nodes(), groupB.Nodes(), p, rng, pos);
    match groupA
    case Missing =>
      if g.Size() == 0 then Success(run)
      else assert !SeedsReadable(groupA, groupB, 0); Failure(MissingGroup)
    case Listed(a) =>
      if groupB.Listed? || forall n: Node | n < g.Size() :: n in a then Success(run)
      else UnreadableNode(groupA, groupB, g.Size()); Failure(MissingGroup)
  }

  /** A node outside group A reads a missing group B. */
  lemma UnreadableNode(groupA: Group, groupB: Group, size: nat)
    requires groupA.Listed? && groupB.Missing?
    requires !forall n: Node :: n < size ==> n in groupA.nodes
    ensures !forall n: Node :: n < size ==> SeedsReadable(groupA, groupB, n)
  {
    var n: Node :| n < size && n !in groupA.nodes;
    assert !SeedsReadable(groupA, groupB, n);
  }

  /**
   A sample of `size` nodes leaves the other `g.Size() - size` nodes out, so
   it holds every node exactly when it has the graph's size.
   */
  lemma SampledLeaves(g: Graph, group: Group, size: nat)
    requires group.Listed? ==> RandomSample(g, group.nodes, size, [])
    ensures group.Listed? ==> |NonMembers(group.nodes, g.Size())| == g.Size() - size
    ensures group.Listed? ==> (size == g.Size() <==> forall n: Node :: n < g.Size() ==> n in group.nodes)
  {
    if group.Listed? {
      NonMembersCard(group.nodes, g.Size());
      NoNonMembers(group.nodes, g.Size());
    }
  }

  /** `run` is an engine run on `g` seeded with `groupA` and `groupB`, from some draw position. */
  ghost predicate EngineRun(g: Graph, tMax: nat, p: real, groupA: seq<Node>, groupB: seq<Node>, rng: Rng, run: Run) {
    exists q: nat :: run == GraphModelRun(g, tMax, groupA, groupB, p, rng, q)
  }

  /**
   `fullyRandomExperiment(G, tMax, probability, sizeGroupA, sizeGroupB)`:
   sample group A from all nodes, then group B from the nodes outside group
   A, and run the engine on the two groups. When the two sizes together
   exceed the graph, a run survives only on an empty graph or when group A
   takes every node, so that the missing group B is never read.
   */
  function FullyRandomExperiment(g: Graph, tMax: nat, probability: real, sizeGroupA: nat, sizeGroupB: nat, rng: Rng, pos: nat, fuel: nat): (r: Result<Run>)
    ensures sizeGroupA + sizeGroupB > g.Size() && r.Success? ==> g.Size() == 0 || sizeGroupA == g.Size()
    ensures r.Failure? ==> r.error == SamplerExhausted || (r.error == MissingGroup && sizeGroupA + sizeGroupB > g.Size())
    ensures r.Failure? && sizeGroupA == g.Size() ==> r.error == SamplerExhausted
    ensures g.Size() == 0 ==> r == Success(GraphModelRun(g, tMax, [], [], probability, rng, pos))
    ensures var a := GenerateRandomSample(g, sizeGroupA, [], rng, pos, fuel);
      sizeGroupA + sizeGroupB <= g.Size() && r.Success? ==>
        && a.Success?
        && var b := GenerateRandomSample(g, sizeGroupB, a.value.nodes, rng, a.value.pos, fuel);
           && b.Success?
           && r.value == GraphModelRun(g, tMax, a.value.nodes, b.value.nodes, probability, rng, b.value.pos)
    ensures var a := GenerateRandomSample(g, sizeGroupA, [], rng, pos, fuel);
      sizeGroupA + sizeGroupB > g.Size() && r.Success? && g.Size() > 0 ==>
        a.Success? && r.value == GraphModelRun(g, tMax, a.value.nodes, [], probability, rng, a.value.pos)
    ensures var a := GenerateRandomSample(g, sizeGroupA, [], rng, pos, fuel);
      sizeGroupA + sizeGroupB <= g.Size() ==>
        (r.Success? <==> a.Success? && GenerateRandomSample(g, sizeGroupB, a.value.nodes, rng, a.value.pos, fuel).Success?)
    ensures var a := GenerateRandomSample(g, sizeGroupA, [], rng, pos, fuel);
      r == Failure(SamplerExhausted) <==>
        || a == Failure(SamplerExhausted)
        || (a.Success? && GenerateRandomSample(g, sizeGroupB, a.value.nodes, rng, a.value.pos, fuel) == Failure(SamplerExhausted))
  {
    NonMembersCard([], g.Size());
    var a :- SampleGroup(g, sizeGroupA, Listed([]), rng, pos, fuel);
    SampledLeaves(g, a.group, sizeGroupA);
    var b :- SampleGroup(g, sizeGroupB, a.group, rng, a.pos, fuel);
    assert g.Size() == 0 || sizeGroupA == g.Size() ==> RandomSample(g, a.group.Nodes(), g.Size(), []);
    RunGroups(g, tMax, probability, a.group, b.group, rng, b.pos)
  }

  /**
   `halfRandomExperimentA(G, tMax, probability, groupA, sizeGroupB)`: keep
   the given group A and sample group B from the nodes outside it. With too
   few such nodes group B is missing, and the run survives only when group A
   holds every node.
   */
  function HalfRandomExperimentA(g: Graph, tMax: nat, probability: real, groupA: seq<Node>, sizeGroupB: nat, rng: Rng, pos: nat, fuel: nat): (r: Result<Run>)
    ensures sizeGroupB <= |NonMembers(groupA, g.Size())| && r.Failure? ==> r.error == SamplerExhausted
    ensures |NonMembers(groupA, g.Size())| < sizeGroupB ==>
      r == if forall n: Node :: n < g.Size() ==> n in groupA
           then Success(GraphModelRun(g, tMax, groupA, [], probability, rng, pos))
           else Failure(MissingGroup)
    ensures var b := GenerateRandomSample(g, sizeGroupB, groupA, rng, pos, fuel);
      sizeGroupB <= |NonMembers(groupA, g.Size())| && r.Success? ==>
        b.Success? && r.value == GraphModelRun(g, tMax, groupA, b.value.nodes, probability, rng, b.value.pos)
    ensures var b := GenerateRandomSample(g, sizeGroupB, groupA, rng, pos, fuel);
      sizeGroupB <= |NonMembers(groupA, g.Size())| ==> (r.Success? <==> b.Success?)
    ensures r == Failure(SamplerExhausted) <==> GenerateRandomSample(g, sizeGroupB, groupA, rng, pos, fuel) == Failure(SamplerExhausted)
  {
    var b :- SampleGroup(g, sizeGroupB, Listed(groupA), rng, pos, fuel);
    RunGroups(g, tMax, probability, Listed(groupA), b.group, rng, b.pos)
  }

  /**
   `halfRandomExperimentB(G, tMax, probability, groupB, sizeGroupA)`: keep
   the given group B and sample group A from the nodes outside it. With too
   few such nodes group A is missing, and the run survives only on an empty
   graph.
   */
  function HalfRandomExperimentB(g: Graph, tMax: nat, probability: real, groupB: seq<Node>, sizeGroupA: nat, rng: Rng, pos: nat, fuel: nat): (r: Result<Run>)
    ensures sizeGroupA <= |NonMembers(groupB, g.Size())| && r.Failure? ==> r.error == SamplerExhausted
    ensures |NonMembers(groupB, g.Size())| < sizeGroupA ==>
      r == if g.Size() == 0
           then Success(GraphModelRun(g, tMax, [], groupB, probability, rng, pos))
           else Failure(MissingGroup)
    ensures var a := GenerateRandomSample(g, sizeGroupA, groupB, rng, pos, fuel);
      sizeGroupA <= |NonMembers(groupB, g.Size())| && r.Success? ==>
        a.Success? && r.value == GraphModelRun(g, tMax, a.value.nodes, groupB, probability, rng, a.value.pos)
    ensures var a := GenerateRandomSample(g, sizeGroupA, groupB, rng, pos, fuel);
      sizeGroupA <= |NonMembers(groupB, g.Size())| ==> (r.Success? <==> a.Success?)
    ensures r == Failure(SamplerExhausted) <==> GenerateRandomSample(g, sizeGroupA, groupB, rng, pos, fuel) == Failure(SamplerExhausted)
  {
    var a :- SampleGroup(g, sizeGroupA, Listed(groupB), rng, pos, fuel);
    RunGroups(g, tMax, probability, a.group, Listed(groupB), rng, a.pos)
  }

  /**
   A half-random experiment whose group B cannot be sampled survives only with
   group A on every node, and then every snapshot it returns is `[0, N, 0]`.
   */
  lemma UnsampledGroupB(g: Graph, tMax: nat, probability: real, groupA: seq<Node>, sizeGroupB: nat, rng: Rng, pos: nat, fuel: nat, t: nat)
    requires |NonMembers(groupA, g.Size())| < sizeGroupB
    requires HalfRandomExperimentA(g, tMax, probability, groupA, sizeGroupB, rng, pos, fuel).Success?
    requires t <= tMax
    ensures HalfRandomExperimentA(g, tMax, probability, groupA, sizeGroupB, rng, pos, fuel).value.data[t] == Counts(0, g.Size(), 0)
  {
    AllSeededA(g, tMax, groupA, [], probability, rng, pos, t);
  }

  /** `run` has `tMax + 1` snapshots, and each of them counts every node of `g` once. */
  ghost predicate CountsAll(g: Graph, tMax: nat, run: Run) {
    && |run.data| == tMax + 1
    && forall t :: 0 <= t <= tMax ==> run.data[t].Total() == g.Size()
  }

  /** Every engine run counts every node in every snapshot. */
  lemma EngineRunCountsAll(g: Graph, tMax: nat, p: real, groupA: seq<Node>, groupB: seq<Node>, rng: Rng, run: Run)
    requires EngineRun(g, tMax, p, groupA, groupB, rng, run)
    ensures CountsAll(g, tMax, run)
  {
    var q: nat :| run == GraphModelRun(g, tMax, groupA, groupB, p, rng, q);
    forall t | 0 <= t <= tMax
      ensures run.data[t].Total() == g.Size()
    {
      SnapshotsCountStates(g, tMax, groupA, groupB, p, rng, q, t);
    }
  }

  /** A fully random experiment that returns a run returns one that counts every node in every snapshot. */
  lemma FullyRandomCountsAll(g: Graph, tMax: nat, probability: real, sizeGroupA: nat, sizeGroupB: nat, rng: Rng, pos: nat, fuel: nat)
    ensures FullyRandomExperiment(g, tMax, probability, sizeGroupA, sizeGroupB, rng, pos, fuel).Success? ==> CountsAll(g, tMax, FullyRandomExperiment(g, tMax, probability, sizeGroupA, sizeGroupB, rng, pos, fuel).value)
  {
    if FullyRandomExperiment(g, tMax, probability, sizeGroupA, sizeGroupB, rng, pos, fuel).Success? {
      var run := FullyRandomExperiment(g, tMax, probability, sizeGroupA, sizeGroupB, rng, pos, fuel).value;
      var a := GenerateRandomSample(g, sizeGroupA, [], rng, pos, fuel);
      if g.Size() == 0 {
        assert EngineRun(g, tMax, probability, [], [], rng, run);
        EngineRunCountsAll(g, tMax, probability, [], [], rng, run);
      } else if sizeGroupA + sizeGroupB <= g.Size() {
        var b := GenerateRandomSample(g, sizeGroupB, a.value.nodes, rng, a.value.pos, fuel);
        assert EngineRun(g, tMax, probability, a.value.nodes, b.value.nodes, rng, run);
        EngineRunCountsAll(g, tMax, probability, a.value.nodes, b.value.nodes, rng, run);
      } else {
        assert EngineRun(g, tMax, probability, a.value.nodes, [], rng, run);
        EngineRunCountsAll(g, tMax, probability, a.value.nodes, [], rng, run);
      }
    }
  }

  /** A half-random experiment A that returns a run returns one that counts every node in every snapshot. */
  lemma HalfRandomACountsAll(g: Graph, tMax: nat, probability: real, groupA: seq<Node>, sizeGroupB: nat, rng: Rng, pos: nat, fuel: nat)
    ensures HalfRandomExperimentA(g, tMax, probability, groupA, sizeGroupB, rng, pos, fuel).Success? ==> CountsAll(g, tMax, HalfRandomExperimentA(g, tMax, probability, groupA, sizeGroupB, rng, pos, fuel).value)
  {
    if HalfRandomExperimentA(g, tMax, probability, groupA, sizeGroupB, rng, pos, fuel).Success? {
      var run := HalfRandomExperimentA(g, tMax, probability, groupA, sizeGroupB, rng, pos, fuel).value;
      if sizeGroupB <= |NonMembers(groupA, g.Size())| {
        var b := GenerateRandomSample(g, sizeGroupB, groupA, rng, pos, fuel);
        assert EngineRun(g, tMax, probability, groupA, b.value.nodes, rng, run);
        EngineRunCountsAll(g, tMax, probability, groupA, b.value.nodes, rng, run);
      } else {
        assert EngineRun(g, tMax, probability, groupA, [], rng, run);
        EngineRunCountsAll(g, tMax, probability, groupA, [], rng, run);
      }
    }
  }

  /** A half-random experiment B that returns a run returns one that counts every node in every snapshot. */
  lemma HalfRandomBCountsAll(g: Graph, tMax: nat, probability: real, groupB: seq<Node>, sizeGroupA: nat, rng: Rng, pos: nat, fuel: nat)
    ensures HalfRandomExperimentB(g, tMax, probability, groupB, sizeGroupA, rng, pos, fuel).Success? ==> CountsAll(g, tMax, HalfRandomExperimentB(g, tMax, probability, groupB, sizeGroupA, rng, pos, fuel).value)
  {
    if HalfRandomExperimentB(g, tMax, probability, groupB, sizeGroupA, rng, pos, fuel).Success? {
      var run := HalfRandomExperimentB(g, tMax, probability, groupB, sizeGroupA, rng, pos, fuel).value;
      if sizeGroupA <= |NonMembers(groupB, g.Size())| {
        var a := GenerateRandomSample(g, sizeGroupA, groupB, rng, pos, fuel);
        assert EngineRun(g, tMax, probability, a.value.nodes, groupB, rng, run);
        EngineRunCountsAll(g, tMax, probability, a.value.nodes, groupB, rng, run);
      } else {
        assert EngineRun(g, tMax, probability, [], groupB, rng, run);
        EngineRunCountsAll(g, tMax, probability, [], groupB, rng, run);
      }
    }
  }

  /**
   An experiment as `repeatedExperiments` calls it: the graph, the number of
   steps, the probability, two mode-specific arguments, and the random
   stream read from a position.
   */
  type Experiment<!X, !Y> = (Graph, nat, real, X, Y, Rng, nat) -> Result<Run>

  /** The trials collected so far, by trial number, and the position of the next draw. */
  datatype Trials = Trials(data: map<nat, Run>, pos: nat)

  /**
   `repeatedExperiments(experiment, G, tMax, probability, forthArgument,
   fifthArgument, experimentsNumber)`: call `experiment` that many times with
   the same arguments, the random stream continuing from trial to trial, and
   file the results under the trial numbers.
   */
  function RepeatedExperiments<X, Y>(experiment: Experiment<X, Y>, g: Graph, tMax: nat, probability: real,
                                     forthArgument: X, fifthArgument: Y, experimentsNumber: nat, rng: Rng, pos: nat): (r: Result<Trials>)
    ensures r.Success? ==> forall n: nat :: n in r.value.data <==> n < experimentsNumber
    ensures r.Success? ==> forall n :: n in r.value.data ==>
      exists q: nat :: experiment(g, tMax, probability, forthArgument, fifthArgument, rng, q) == Success(r.value.data[n])
    ensures r.Success? && experimentsNumber > 0 ==>
      && experiment(g, tMax, probability, forthArgument, fifthArgument, rng, pos) == Success(r.value.data[0])
      && r.value.pos == r.value.data[experimentsNumber - 1].pos
    ensures r.Success? ==> forall n :: 0 < n < experimentsNumber ==>
      experiment(g, tMax, probability, forthArgument, fifthArgument, rng, r.value.data[n - 1].pos) == Success(r.value.data[n])
    ensures experimentsNumber == 0 ==> r == Success(Trials(map[], pos))
    ensures r.Failure? ==> exists k ::
      && 0 <= k < experimentsNumber
      && RepeatedExperiments(experiment, g, tMax, probability, forthArgument, fifthArgument, k, rng, pos).Success?
      && experiment(g, tMax, probability, forthArgument, fifthArgument, rng,
                    RepeatedExperiments(experiment, g, tMax, probability, forthArgument, fifthArgument, k, rng, pos).value.pos)
         == Failure(r.error)
    decreases experimentsNumber
  {
    if experimentsNumber == 0 then Success(Trials(map[], pos))
    else
      var prev :- RepeatedExperiments(experiment, g, tMax, probability, forthArgument, fifthArgument, experimentsNumber - 1, rng, pos);
      var run :- experiment(g, tMax, probability, forthArgument, fifthArgument, rng, prev.pos);
      Success(Trials(prev.data[experimentsNumber - 1 := run], run.pos))
  }

  /** The three seeding modes as experiments `repeatedExperiments` can call, with a draw budget of `fuel` per sample. */
  function FullyRandom(fuel: nat): Experiment<nat, nat> {
    (g: Graph, tMax: nat, p: real, sizeGroupA: nat, sizeGroupB: nat, rng: Rng, pos: nat) => FullyRandomExperiment(g, tMax, p, sizeGroupA, sizeGroupB, rng, pos, fuel)
  }

  function HalfRandomA(fuel: nat): Experiment<seq<Node>, nat> {
    (g: Graph, tMax: nat, p: real, groupA: seq<Node>, sizeGroupB: nat, rng: Rng, pos: nat) => HalfRandomExperimentA(g, tMax, p, groupA, sizeGroupB, rng, pos, fuel)
  }

  function HalfRandomB(fuel: nat): Experiment<seq<Node>, nat> {
    (g: Graph, tMax: nat, p: real, groupB: seq<Node>, sizeGroupA: nat, rng: Rng, pos: nat) => HalfRandomExperimentB(g, tMax, p, groupB, sizeGroupA, rng, pos, fuel)
  }

  /** Whatever run `experiment` returns with these arguments, from any draw position, counts every node in every snapshot. */
  ghost predicate Conserving<X, Y>(experiment: Experiment<X, Y>, g: Graph, tMax: nat, p: real, x: X, y: Y, rng: Rng) {
    forall q: nat :: experiment(g, tMax, p, x, y, rng, q).Success? ==> CountsAll(g, tMax, experiment(g, tMax, p, x, y, rng, q).value)
  }

  /** All three seeding modes are conserving. */
  lemma SeedingModesConserve(fuel: nat, g: Graph, tMax: nat, p: real, size: nat, sizeOther: nat, group: seq<Node>, rng: Rng)
    ensures Conserving(FullyRandom(fuel), g, tMax, p, size, sizeOther, rng)
    ensures Conserving(HalfRandomA(fuel), g, tMax, p, group, size, rng)
    ensures Conserving(HalfRandomB(fuel), g, tMax, p, group, size, rng)
  {
    forall q: nat | FullyRandom(fuel)(g, tMax, p, size, sizeOther, rng, q).Success?
      ensures CountsAll(g, tMax, FullyRandom(fuel)(g, tMax, p, size, sizeOther, rng, q).value)
    {
      FullyRandomCountsAll(g, tMax, p, size, sizeOther, rng, q, fuel);
    }
    forall q: nat | HalfRandomA(fuel)(g, tMax, p, group, size, rng, q).Success?
      ensures CountsAll(g, tMax, HalfRandomA(fuel)(g, tMax, p, group, size, rng, q).value)
    {
      HalfRandomACountsAll(g, tMax, p, group, size, rng, q, fuel);
    }
    forall q: nat | HalfRandomB(fuel)(g, tMax, p, group, size, rng, q).Success?
      ensures CountsAll(g, tMax, HalfRandomB(fuel)(g, tMax, p, group, size, rng, q).value)
    {
      HalfRandomBCountsAll(g, tMax, p, group, size, rng, q, fuel);
    }
  }

  /** The snapshot series of each trial, by trial number: the dictionary `averageExperiment` is given. */
  function TrialData(data: map<nat, Run>): map<nat, seq<Counts>> {
    map n | n in data :: data[n].data
  }

  /** `repeatedExperiments` that returns collects exactly `experimentsNumber` trials. */
  lemma {:induction false} RepeatedCount<X, Y>(experiment: Experiment<X, Y>, g: Graph, tMax: nat, probability: real,
                                               forthArgument: X, fifthArgument: Y, experimentsNumber: nat, rng: Rng, pos: nat)
    requires RepeatedExperiments(experiment, g, tMax, probability, forthArgument, fifthArgument, experimentsNumber, rng, pos).Success?
    ensures |RepeatedExperiments(experiment, g, tMax, probability, forthArgument, fifthArgument, experimentsNumber, rng, pos).value.data| == experimentsNumber
    decreases experimentsNumber
  {
    if experimentsNumber > 0 {
      var prev := RepeatedExperiments(experiment, g, tMax, probability, forthArgument, fifthArgument, experimentsNumber - 1, rng, pos);
      assert prev.Success?;
      var run := experiment(g, tMax, probability, forthArgument, fifthArgument, rng, prev.value.pos);
      RepeatedCount(experiment, g, tMax, probability, forthArgument, fifthArgument, experimentsNumber - 1, rng, pos);
      assert experimentsNumber - 1 !in prev.value.data;
      assert RepeatedExperiments(experiment, g, tMax, probability, forthArgument, fifthArgument, experimentsNumber, rng, pos).value.data
          == prev.value.data[experimentsNumber - 1 := run.value];
    }
  }

  /** The trials of a conserving experiment are numbered `0 .. N-1`, and each has all `tMax + 1` snapshots, counting every node. */
  lemma TrialsCountAll<X, Y>(experiment: Experiment<X, Y>, g: Graph, tMax: nat, probability: real,
                             forthArgument: X, fifthArgument: Y, experimentsNumber: nat, rng: Rng, pos: nat)
    requires Conserving(experiment, g, tMax, probability, forthArgument, fifthArgument, rng)
    requires RepeatedExperiments(experiment, g, tMax, probability, forthArgument, fifthArgument, experimentsNumber, rng, pos).Success?
    ensures var d := TrialData(RepeatedExperiments(experiment, g, tMax, probability, forthArgument, fifthArgument, experimentsNumber, rng, pos).value.data);
      && |d| == experimentsNumber
      && Complete(d, tMax + 1)
      && forall n: nat, t :: n < |d| && 0 <= t <= tMax ==> d[n][t].Total() == g.Size()
  {
    var trials := RepeatedExperiments(experiment, g, tMax, probability, forthArgument, fifthArgument, experimentsNumber, rng, pos).value;
    var d := TrialData(trials.data);
    RepeatedCount(experiment, g, tMax, probability, forthArgument, fifthArgument, experimentsNumber, rng, pos);
    assert d.Keys == trials.data.Keys;
    forall n: nat | n < |d|
      ensures n in d && CountsAll(g, tMax, trials.data[n])
    {
      var q: nat :| experiment(g, tMax, probability, forthArgument, fifthArgument, rng, q) == Success(trials.data[n]);
    }
  }

  /**
   Averaging the trials of a conserving experiment: the three means of every
   averaged step add up to the number of nodes, whether the last snapshot is
   averaged or not.
   */
  lemma AveragedTrialsConserve<X, Y>(experiment: Experiment<X, Y>, g: Graph, tMax: nat, probability: real,
                                     forthArgument: X, fifthArgument: Y, experimentsNumber: nat, rng: Rng, pos: nat)
    requires Conserving(experiment, g, tMax, probability, forthArgument, fifthArgument, rng)
    requires RepeatedExperiments(experiment, g, tMax, probability, forthArgument, fifthArgument, experimentsNumber, rng, pos).Success?
    requires experimentsNumber > 0
    ensures var d := TrialData(RepeatedExperiments(experiment, g, tMax, probability, forthArgument, fifthArgument, experimentsNumber, rng, pos).value.data);
      && |d| == experimentsNumber
      && Complete(d, tMax + 1)
      && (forall t :: 0 <= t < tMax ==> AverageExperiment(d, tMax)[t].Total() == g.Size() as real)
      && (forall t :: 0 <= t <= tMax ==> AverageEverySnapshot(d, tMax)[t].Total() == g.Size() as real)
  {
    var d := TrialData(RepeatedExperiments(experiment, g, tMax, probability, forthArgument, fifthArgument, experimentsNumber, rng, pos).value.data);
    TrialsCountAll(experiment, g, tMax, probability, forthArgument, fifthArgument, experimentsNumber, rng, pos);
    AverageConserves(d, tMax, g.Size());
    AverageConserves(d, tMax + 1, g.Size());
    assert AverageEverySnapshot(d, tMax) == AverageExperiment(d, tMax + 1);
  }
}
