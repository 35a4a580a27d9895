# Competing-influence diffusion on a graph, in Dafny

This project models the core of a simulator for a two-influence contagion on a
network. Every node is undecided (U), holds influence A, or holds influence B.
The engine `graphModelRun(G, tMax, groupA, groupB, p)` does three things:
- It seeds group A as A. It seeds group B as B, except for nodes already in
  group A. Every other node starts U.
- It runs `tMax` synchronous steps. In each step, every U node scans its
  neighbours in adjacency order. It takes one `random()` draw for each
  neighbour that was A at the current step, and turns A at the next step on the
  first draw below `p`.
- It records one `[U, A, B]` snapshot per step. The counters behind the
  snapshots are updated incrementally, as the engine updates them.

The experiment layer builds on the engine:
- It samples seed groups with `generateRandomSample`, a rejection sampler without
  replacement over the nodes outside an `exclude` list.
- Its three seeding modes (`fullyRandomExperiment`, `halfRandomExperimentA`,
  `halfRandomExperimentB`) compose the sampler with one engine run.
- `repeatedExperiments` repeats an experiment and files the runs under trial
  numbers `0 .. N-1`.
- `averageExperiment` takes the per-step mean of each component across trials.

Modelling choices:
- **Nodes.** A node is its position `0 .. N-1` in the graph's iteration order,
  and a graph is the adjacency list of each node, in iteration order.
- **Groups.** Seed groups are lists of node labels. A label that is not a node
  is simply never matched.
- **Random generator.** The process-wide generator is an oracle `Rng` read at a
  position that is passed along. Call `k` is `uniform(k)` for `random()` and
  `integer(k)` for `randint`. The contracts say which draws each node reads:
  step `t` starts where a run of `t` steps ends, and within a step each node
  starts where the nodes before it stopped (`Engine.StepFate`,
  `Engine.NodeDraws`, `Dynamics.RunStep`, `Dynamics.RunFollowsRule`). The
  seeding modes draw their samples first, one after the other, and the engine
  starts where the last sample stopped (`Experiments.SampleGroup`,
  `Experiments.FullyRandomExperiment` and the two half-random modes). So the
  k-th draw in the model is the k-th draw in the program.
- **Output.** The engine's per-node `state` lists on the graph are returned as
  a value: `Run(data, states, pos)`. Here `data` is the snapshot list,
  `states[n][t]` is node `n`'s state at step `t`, and `pos` is the next unread
  draw.
- **`None` and `TypeError`.** The sampler's `None` is passed on as a missing
  group, as the code passes it on. Reading a missing group as a list is Python's
  `TypeError`, and it happens only where the code reads that group:
  - the sampler reads `exclude` once for each node of the graph;
  - the engine reads group B only for nodes outside group A.

  So an experiment fails exactly where the program raises. For example, on an
  empty graph, or when group A already holds every node, a missing group is
  never read and the run is returned.

Files:
- `types.dfy`: states, snapshots, graphs, the oracle, node-set counting, and the error outcomes.
- `snapshots.dfy`: the counting identities behind the engine's running counters.
- `engine.dfy`: `graphModelRun`.
- `dynamics.dfy`: what a whole run guarantees.
- `sampling.dfy`: `generateRandomSample`.
- `experiments.dfy`: the seeding modes and `repeatedExperiments`.
- `averaging.dfy`: `averageExperiment`.

The code averages only steps `0 .. tMax-1`, although each run records
`tMax + 1` snapshots. Its own description promises the average "at each time
step" (experiments.py:56). The driver also labels step 49 of a 50-step run
(StartingCode.py:9, StartingCode.py:219-220) as the final infection counts,
though the run ends at step 50. On the other hand, the driver plots the series
against `range(tMax)` (StartingCode.py:158), which relies on length `tMax`.
The model follows the code in `Averaging.AverageExperiment`. It also gives the
averaging of every snapshot, and both are stated for one example (see
Findings).

## Model

| member | source | states |
|---|---|---|
| Engine.InitialState | engine.py:19-27 | a node starts A exactly when it is in group A; B exactly when it is in group B and not in group A; U exactly when it is in neither |
| Engine.InitialConfig | engine.py:18-27 | the initial configuration has one entry per node of the graph, each the node's initial state |
| Engine.TallyCountsNodes | engine.py:17-28 | the snapshot of a configuration holds, for each state, the number of nodes in that state |
| Engine.TallyTotal | engine.py:17-28 | the three counts of a snapshot add up to the number of nodes |
| Engine.Exposures | engine.py:34-38 | a scan takes at most one draw per neighbour |
| Engine.ScanNeighbours | engine.py:33-41 | a scan consumes no more draws than there are A neighbours; a scan that fails consumes one draw for every A neighbour; a scan that succeeds ends on a draw below `p` and has an A neighbour |
| Engine.ScanDecides | engine.py:34-41 | the scan turns the node A if and only if some A neighbour's draw is below `p`; it then stops at the first such neighbour, having consumed one draw per A neighbour up to and including that one |
| Engine.ScanMisses | engine.py:34-41 | when the scan fails, no A neighbour's draw is below `p` |
| Engine.ScanHits | engine.py:34-41 | when the scan succeeds, it stops at the first A neighbour whose draw is below `p`; the draws consumed are one per earlier A neighbour plus one |
| Engine.ScanCertain | engine.py:37-41 | if every draw is below `p`, a U node with an A neighbour turns A |
| Engine.VisitNode | engine.py:32-43 | a node keeps its state or moves from U to A; an A or B node takes no draw |
| Engine.SweepNodes | engine.py:31-46 | visiting the nodes in order leaves the B counter unchanged; the U counter does not grow, and A gains exactly what U loses |
| Engine.SweepFate | engine.py:31-43 | every visited node's next state is what the engine's rule gives it from the current configuration, reading its draws from the position where the nodes before it stopped; the next node starts where it stops |
| Engine.SweepTally | engine.py:39-46 | the incrementally updated counters differ from the starting counters exactly as the tally of the new states differs from the tally of the old ones |
| Engine.Step | engine.py:31-47 | one step gives a next state to every node; B is unchanged, U does not grow, and A gains what U loses |
| Engine.StepFate | engine.py:33-43 | after one step, every node's new state follows the rule from the current states only, with its draws starting where the nodes before it stopped: A and B persist; a U node turns A if and only if the draw for one of its A neighbours is below `p`, and otherwise stays U |
| Engine.NodeDraws | engine.py:32-41 | an A or B node takes no draw in a step; a U node that stays U takes one draw per A neighbour; a U node that turns A takes one draw per A neighbour up to and including the first whose draw is below `p` |
| Engine.StarDrawOrder | engine.py:31-41 | on the star with centre 0 and states `[A, U, U]`, node 1 reads the first draw and node 2 the second: draws `0.9, 0.1` with `p = 0.5` leave node 1 U and turn node 2 A |
| Engine.StepTally | engine.py:39-47 | counters that tally the current configuration tally the next one after a step |
| Engine.Evolve | engine.py:30-47 | `tMax` steps give `tMax + 1` configurations and snapshots, starting with the given ones, each configuration covering every node |
| Engine.EvolvePrefix | engine.py:30-47 | a run of more steps from the same start records the same configurations and snapshots at every step the shorter run reaches |
| Engine.EvolveLast | engine.py:30-47 | the last step of a run of `t + 1` steps is the engine step applied to where a run of `t` steps ends: its configuration, its counters and its draw position |
| Engine.EvolveStepwise | engine.py:30-47 | consecutive configurations and snapshots of a run are related by one engine step, and step `t` reads its draws from where a trajectory of `t` steps ends |
| Engine.EvolveDraws | engine.py:30-47 | step `t` stops drawing where a trajectory of `t + 1` steps ends |
| Engine.Histories | engine.py:13-43 | the per-node histories hold, for every node and step, that node's state in that step's configuration |
| Engine.RunTrajectory | engine.py:17-47 | the trajectory starts from the seeded configuration and its tally |
| Engine.GraphModelRun | engine.py:4-48 | a run returns `tMax + 1` snapshots, and one history of `tMax + 1` states for every node |
| Engine.SeedsByMembership | engine.py:18-27 | a run depends on the seed groups only through which nodes they hold, and on group B only through the nodes outside group A |
| Dynamics.RunTally | engine.py:28-47 | every returned snapshot is the tally of the states recorded at that step |
| Dynamics.SnapshotsCountStates | engine.py:28-47 | every snapshot counts, per state, exactly the nodes whose history has that state at that step, and its total is the number of nodes |
| Dynamics.InitialSnapshot | engine.py:17-28 | the first snapshot counts the nodes of group A as A, the nodes of group B outside group A as B, and every other node as U |
| Dynamics.RunStep | engine.py:30-47 | consecutive recorded configurations and snapshots are related by one engine step, which reads its draws from where a run of `t` steps ends and stops where a run of `t + 1` steps ends |
| Dynamics.CountsMonotone | engine.py:39-47 | from one snapshot to the next, B is unchanged, U does not grow, and A grows by exactly what U loses |
| Dynamics.RunFollowsRule | engine.py:33-43 | every recorded transition follows the engine's rule from the previous step's states, with the node's draws starting after those of the earlier steps and of the nodes before it; a U node turns A if and only if the draw for one of its A neighbours at that step is below `p` |
| Dynamics.StatesPersist | engine.py:33-43 | an A or B node keeps its state, and the only change a node can make is to A |
| Dynamics.AllSeededStates | engine.py:19-21 | when group A holds every node, every node is A at every step |
| Dynamics.AllSeededA | engine.py:17-47 | when group A holds every node, every snapshot is `[0, N, 0]` |
| Dynamics.ZeroProbabilityFreezes | engine.py:38 | with `p <= 0` and draws in `[0, 1)`, no state and no snapshot ever changes |
| Dynamics.CertainTransmission | engine.py:37-41 | when every draw is below `p`, a U node with an A neighbour is A at the next step |
| Dynamics.RingScenario | engine.py:4-48 | on the ring 0-1-2-3-0 with group A = {0}, group B = {2}, `p = 1` and `tMax = 2`, nodes 1 and 3 are A at step 1, node 2 stays B, and the last snapshot is `[0, 3, 1]` |
| Types.DistinctPairwise | experiments.py:14-15 | a list has no repeats exactly when no two of its positions hold the same node |
| Sampling.Candidates | experiments.py:9 | the pool holds only nodes of the graph outside `exclude`, listed in the graph's iteration order |
| Sampling.CandidatesComplete | experiments.py:9 | every node outside `exclude` is in the pool |
| Sampling.CandidatesDistinct | experiments.py:9 | the pool has no repeats, as it follows the iteration order |
| Sampling.CandidatesCount | experiments.py:9-10 | the pool is as large as the set of nodes outside `exclude` |
| Sampling.Drawn | experiments.py:13 | `m` draws give `m` pool members |
| Sampling.DrawDistinct | experiments.py:12-15 | the loop's only failure is running out of draw budget; a completed sample has exactly the requested size and consumes at most one draw per unit of budget |
| Sampling.DrawDistinctExhausted | experiments.py:12-15 | the loop fails if and only if keeping the new nodes among all the budget's draws still leaves the sample short, so it returns a sample whenever the budget's draws complete it |
| Sampling.ExhaustedPrefix | experiments.py:12-15 | draws that leave the sample short after the whole budget leave it short after any smaller number of them |
| Sampling.DrawDistinctKeepsNew | experiments.py:12-15 | the sample is what keeping each new node among the consumed draws, in order, makes of it |
| Sampling.DrawDistinctStopsFirst | experiments.py:12 | the loop stops at the first draw that completes the sample: every shorter run of draws leaves it short |
| Sampling.KeepNewDistinct | experiments.py:14-15 | keeping only new nodes leaves no repeats, extends the sample, and adds only drawn nodes |
| Sampling.SampleFromPool | experiments.py:9-15 | new nodes kept from draws over the pool form a sample of distinct, non-excluded graph nodes |
| Sampling.DrawDistinctFuel | experiments.py:12-15 | a larger draw budget does not change a sample that completes |
| Sampling.GenerateRandomSample | experiments.py:7-16 | there is no sample (`None`) exactly when fewer nodes lie outside `exclude` than requested; a sample has the requested size, no two positions holding the same node, and only graph nodes outside `exclude` |
| Sampling.SampleIsFirstDistinctDraws | experiments.py:12-16 | a sample is the new nodes among the draws it consumed, up to the first draw that completes it |
| Sampling.SampleExhausted | experiments.py:7-16 | the sampler runs out of budget if and only if enough nodes lie outside `exclude` and the budget's draws over the pool still leave the sample short |
| Sampling.SampleCompletes | experiments.py:10-16 | when enough nodes lie outside `exclude` and some number of draws within the budget holds the requested count of distinct pool nodes, a sample is returned |
| Sampling.SampleFuel | experiments.py:12-16 | a sample does not depend on the draw budget once the budget suffices |
| Experiments.SampleGroup | experiments.py:7-11 | a missing `exclude` fails exactly on a non-empty graph; otherwise the group is missing exactly when too few nodes lie outside `exclude`, and a present group is exactly the sample `generateRandomSample` draws from the given position, with the next position where that sample stopped; with a listed `exclude` (or an empty graph), too few nodes outside `exclude` give the missing group without a draw, and the call runs out of budget exactly when `generateRandomSample` does |
| Experiments.RunGroups | engine.py:18-27 | the run survives exactly when no node's initial-state test reads a missing group: a missing group A only on an empty graph, and a missing group B only when group A holds every node |
| Experiments.FullyRandomExperiment | experiments.py:32-35 | when the two sizes fit in the graph, a returned run is the engine run on the sample A drawn from the starting position and the sample B drawn outside A from where A stopped, with the engine's draws starting where B stopped; when they do not fit, a run survives only on an empty graph (the run with both groups empty) or when sample A takes every node (the run on that sample with B empty); when the sizes fit, a run is returned if and only if both samples complete; the call runs out of budget exactly when sample A does, or sample A completes and sample B does; any other failure is the missing group, and only when the sizes do not fit |
| Experiments.HalfRandomExperimentA | experiments.py:38-40 | a returned run is the engine run on group A and the sample B drawn outside it from the starting position, with the engine's draws starting where B stopped; with too few nodes outside group A, the result is the run with B empty if group A holds every node, and the missing-group failure otherwise; when the size fits, a run is returned if and only if sample B completes, and the call runs out of budget exactly when sample B does |
| Experiments.HalfRandomExperimentB | experiments.py:43-45 | a returned run is the engine run on the sample A drawn outside group B from the starting position and group B, with the engine's draws starting where A stopped; with too few nodes outside group B, the result is the run with A empty on an empty graph, and the missing-group failure otherwise; when the size fits, a run is returned if and only if sample A completes, and the call runs out of budget exactly when sample A does |
| Experiments.UnsampledGroupB | experiments.py:38-40 | a half-random experiment A that cannot sample group B, yet returns a run, returns one whose every snapshot is `[0, N, 0]` |
| Experiments.RepeatedExperiments | experiments.py:48-54 | the trials are filed under exactly the numbers `0 .. N-1`; each is a call of the experiment; the first reads the stream from the start, and each later one continues where the previous one stopped; no trials give the empty dictionary; a failure is the failure of the first trial that fails, read from where the trials before it stopped |
| Experiments.RepeatedCount | experiments.py:49-52 | `N` repetitions collect exactly `N` trials |
| Experiments.EngineRunCountsAll | engine.py:28-47 | every engine run has `tMax + 1` snapshots, each counting every node |
| Experiments.FullyRandomCountsAll | experiments.py:32-35 | every run a fully random experiment returns counts every node in every snapshot |
| Experiments.HalfRandomACountsAll | experiments.py:38-40 | every run a half-random experiment A returns counts every node in every snapshot |
| Experiments.HalfRandomBCountsAll | experiments.py:43-45 | every run a half-random experiment B returns counts every node in every snapshot |
| Experiments.SeedingModesConserve | experiments.py:32-45 | all three seeding modes, called as `repeatedExperiments` calls them, conserve the node count from any draw position |
| Experiments.TrialsCountAll | experiments.py:48-54 | the trials of a conserving experiment are numbered `0 .. N-1`, and each has `tMax + 1` snapshots that count every node |
| Experiments.AveragedTrialsConserve | experiments.py:57-60 | averaging the trials of a conserving experiment gives means that add up to the number of nodes at every averaged step |
| Averaging.AverageSteps | experiments.py:60 | each averaged component is the trial sum of that component divided by the number of trials |
| Averaging.AverageExperiment | experiments.py:57-60 | the averaged series has `tMax` entries, one per step `0 .. tMax-1`, each the per-component mean across trials |
| Averaging.AverageEverySnapshot | experiments.py:57-60 | the averaged series has `tMax + 1` entries, the last snapshot included, each the per-component mean across trials |
| Averaging.TrialSumTotal | experiments.py:60 | when every trial's snapshot totals `T`, the three trial sums together are `N * T` |
| Averaging.TrialSumConstant | experiments.py:60 | when every trial has the value `x` in a component, the trial sum is `N * x` |
| Averaging.AverageConserves | experiments.py:57-60 | when every trial conserves the node count, each averaged entry's three means add up to it |
| Averaging.AverageOfIdentical | experiments.py:57-60 | averaging identical trials gives back the trials' series, cut to its first `tMax` snapshots |
| Averaging.TwoTrialSums | experiments.py:60 | the trial sums of the two example trials, step by step |
| Averaging.TwoTrialAverage | experiments.py:57-60 | averaging `[8,1,1],[7,2,1],[6,3,1]` and `[8,1,1],[6,3,1],[5,4,1]` with `tMax = 2` gives `[8,1,1],[6.5,2.5,1]`, without the final `[5.5,3.5,1]` |
| Averaging.TwoTrialAverageEverySnapshot | experiments.py:57-60 | averaging every snapshot of the same two trials gives `[8,1,1],[6.5,2.5,1],[5.5,3.5,1]` |

## Left out

- Printing: the progress message of `repeatedExperiments` (experiments.py:53) is output only.
- Graph attributes: storing the histories as node attributes on the graph (engine.py:11-15) is replaced by returning them as `Run.states`. A later run overwrites the attributes, so nothing carries over between trials.
- Graph generation: the power-law helpers `generatePowerLawSample` and `generatePowerLawGraph` (experiments.py:19-29) and the networkx constructors are not part of this model.
- Other files: the driver script and the plotting code (StartingCode.py, visualizer.py) are not part of this model. They are callers, not core.
- Node labels: arbitrary hashable labels and the graph's iteration order are abstracted to positions `0 .. N-1`. A node's neighbours are the sequence `G[n]` yields. That sequence lists each neighbour once, even in a multigraph; the model does not rely on it and allows any neighbour sequence.
- Randomness: `random()` and `randint` are one shared stream, modelled as an oracle read at explicit positions. Nothing is said about the distribution of the draws, beyond `[0, 1)` where a lemma needs it.
- Floating point: `p`, the draws and the averages are reals. Rounding of Python floats is not modelled.
- Sizes and horizons: `sizeGroupA`, `sizeGroupB`, `sampleSize`, `tMax` and the trial count are naturals. In Python, negative values behave like zero for the loops and the size checks.
- Sampling.DrawDistinct: the rejection loop has no bound in Python. The model gives it a draw budget `fuel` and fails with `SamplerExhausted` exactly when the budget's draws do not complete the sample (`Sampling.DrawDistinctExhausted`). `Sampling.SampleFuel` shows the budget does not change a sample that completes.
- Experiments.RepeatedExperiments: an exception in one trial ends the Python call. The model returns that trial's failure instead, and the trials before it are lost in both.
- Argument checks: the engine's callers are trusted with `0 <= p <= 1` and with disjoint groups, as the code trusts them. Overlapping groups are modelled as the code handles them, with A taking precedence.
- Averaging.AverageExperiment: for `tMax > 0` it requires at least one trial, trials numbered `0 .. N-1`, and each series at least `tMax` long. Without these the Python code raises `ZeroDivisionError`, `KeyError` or `IndexError`, and those failures are not modelled. For `tMax = 0` it requires nothing and returns no means, as the code does for any dictionary.

## Findings

| source | as written | input that shows it | evidently intended | confidence | as-written member | corrected member |
|---|---|---|---|---|---|---|
| experiments.py:60 | the averaged series covers steps `range(tMax)`, so it drops the final snapshot of the `tMax + 1` that `graphModelRun` returns | two trials `[8,1,1],[7,2,1],[6,3,1]` and `[8,1,1],[6,3,1],[5,4,1]` with `tMax = 2` average to `[8,1,1],[6.5,2.5,1]`; the final mean `[5.5,3.5,1]` is missing | one mean per recorded snapshot, "at each time step" as the description at experiments.py:56 says: `tMax + 1` entries including the final one | medium, not executed | Averaging.TwoTrialAverage | Averaging.TwoTrialAverageEverySnapshot |
