/**
 What a whole engine run guarantees, stated over what `graphModelRun`
 returns: the snapshot series and the per-node state histories. Snapshots
 count the nodes in each state, so they conserve the node count; B never
 changes and U only shrinks, into A; A and B states persist; every update
 reads the states of the previous step only; and the two extreme
 probabilities freeze or force the spread.
 */
module Dynamics {
  import opened Types
  import opened Engine

  /** The configuration recorded at step `t`: every node's state at that step. */
  function Column(states: seq<seq<State>>, t: nat): (c: Config)
    requires forall n :: 0 <= n < |states| ==> t < |states[n]|
    ensures |c| == |states|
    ensures forall n :: 0 <= n < |c| ==> c[n] == states[n][t]
  {
    seq(|states|, n requires 0 <= n < |states| => states[n][t])
  }

  /** The nodes in state `s` at step `t` of a run. */
  ghost function InStateAt(r: Run, t: nat, s: State): set<Node> {
    set n: Node | n < |r.states| && t < |r.states[n]| && r.states[n][t] == s
  }

  /** The histories a run returns hold, step by step, the configurations of its trajectory. */
  lemma RunColumns(g: Graph, tMax: nat, groupA: seq<Node>, groupB: seq<Node>, p: real, rng: Rng, pos: nat, t: nat)
    requires t <= tMax
    ensures var r := GraphModelRun(g, tMax, groupA, groupB, p, rng, pos);
      Column(r.states, t) == RunTrajectory(g, tMax, groupA, groupB, p, rng, pos).configs[t]
  {
    var r := GraphModelRun(g, tMax, groupA, groupB, p, rng, pos);
    var traj := RunTrajectory(g, tMax, groupA, groupB, p, rng, pos);
    assert Column(r.states, t) == traj.configs[t];
  }

  /** Started from counts that tally the configuration, every snapshot of a trajectory tallies its configuration. */
  lemma {:induction false} EvolveTally(g: Graph, cur: Config, counts: Counts, p: real, rng: Rng, pos: nat, steps: nat, t: nat)
    requires |cur| == g.Size()
    requires counts == Tally(cur)
    requires t <= steps
    ensures var r := Evolve(g, cur, counts, p, rng, pos, steps);
      r.data[t] == Tally(r.configs[t])
    decreases steps
  {
    if t > 0 {
      var s := Step(g, cur, counts, p, rng, pos);
      var r := Evolve(g, cur, counts, p, rng, pos, steps);
      var rest := Evolve(g, s.next, s.counts, p, rng, s.pos, steps - 1);
      StepTally(g, cur, counts, p, rng, pos);
      EvolveTally(g, s.next, s.counts, p, rng, s.pos, steps - 1, t - 1);
      assert r.data[t] == rest.data[t - 1] && r.configs[t] == rest.configs[t - 1];
    }
  }

  /** The snapshot at step `t` is the tally of the states recorded at step `t`. */
  lemma RunTally(g: Graph, tMax: nat, groupA: seq<Node>, groupB: seq<Node>, p: real, rng: Rng, pos: nat, t: nat)
    requires t <= tMax
    ensures var r := GraphModelRun(g, tMax, groupA, groupB, p, rng, pos);
      r.data[t] == Tally(Column(r.states, t))
  {
    var init := InitialConfig(g, groupA, groupB);
    RunColumns(g, tMax, groupA, groupB, p, rng, pos, t);
    EvolveTally(g, init, Tally(init), p, rng, pos, tMax, t);
  }

  /**
   Every snapshot counts, per state, exactly the nodes whose history has that
   state at that step; so the three counts always add up to the number of nodes.
   */
  lemma SnapshotsCountStates(g: Graph, tMax: nat, groupA: seq<Node>, groupB: seq<Node>, p: real, rng: Rng, pos: nat, t: nat)
    requires t <= tMax
    ensures var r := GraphModelRun(g, tMax, groupA, groupB, p, rng, pos);
      && (forall s :: r.data[t].Of(s) == |InStateAt(r, t, s)|)
      && r.data[t].Total() == g.Size()
  {
    var r := GraphModelRun(g, tMax, groupA, groupB, p, rng, pos);
    var c := Column(r.states, t);
    RunTally(g, tMax, groupA, groupB, p, rng, pos, t);
    TallyTotal(c);
    forall s ensures r.data[t].Of(s) == |InStateAt(r, t, s)| {
      TallyCountsNodes(c, s);
      assert Where(c, s) == InStateAt(r, t, s);
    }
  }

  /**
   The first snapshot: A counts the nodes in group A, B the nodes in group B
   but not in group A, and U every other node.
   */
  lemma InitialSnapshot(g: Graph, tMax: nat, groupA: seq<Node>, groupB: seq<Node>, p: real, rng: Rng, pos: nat)
    ensures var r := GraphModelRun(g, tMax, groupA, groupB, p, rng, pos);
      && r.data[0].a == |set n: Node | n < g.Size() && n in groupA|
      && r.data[0].b == |set n: Node | n < g.Size() && n !in groupA && n in groupB|
      && r.data[0].u == |set n: Node | n < g.Size() && n !in groupA && n !in groupB|
  {
    var init := InitialConfig(g, groupA, groupB);
    RunColumns(g, tMax, groupA, groupB, p, rng, pos, 0);
    RunTally(g, tMax, groupA, groupB, p, rng, pos, 0);
    TallyCountsNodes(init, InfluenceA);
    TallyCountsNodes(init, InfluenceB);
    TallyCountsNodes(init, Undecided);
    assert Where(init, InfluenceA) == set n: Node | n < g.Size() && n in groupA;
    assert Where(init, InfluenceB) == set n: Node | n < g.Size() && n !in groupA && n in groupB;
    assert Where(init, Undecided) == set n: Node | n < g.Size() && n !in groupA && n !in groupB;
  }

  /**
   Consecutive recorded configurations and snapshots are related by one step
   of the engine. Step `t` reads its draws from where a run of `t` steps
   ends, and stops where a run of `t + 1` steps ends.
   */
  lemma RunStep(g: Graph, tMax: nat, groupA: seq<Node>, groupB: seq<Node>, p: real, rng: Rng, pos: nat, t: nat)
    requires t < tMax
    ensures var r := GraphModelRun(g, tMax, groupA, groupB, p, rng, pos);
      StepsTo(g, p, rng, Column(r.states, t), r.data[t], GraphModelRun(g, t, groupA, groupB, p, rng, pos).pos, Column(r.states, t + 1), r.data[t + 1])
    ensures var r := GraphModelRun(g, tMax, groupA, groupB, p, rng, pos);
      GraphModelRun(g, t + 1, groupA, groupB, p, rng, pos).pos == Step(g, Column(r.states, t), r.data[t], p, rng, GraphModelRun(g, t, groupA, groupB, p, rng, pos).pos).pos
  {
    var init := InitialConfig(g, groupA, groupB);
    RunColumns(g, tMax, groupA, groupB, p, rng, pos, t);
    RunColumns(g, tMax, groupA, groupB, p, rng, pos, t + 1);
    EvolveStepwise(g, init, Tally(init), p, rng, pos, tMax, t);
    EvolveDraws(g, init, Tally(init), p, rng, pos, tMax, t);
    assert GraphModelRun(g, t, groupA, groupB, p, rng, pos).pos == Evolve(g, init, Tally(init), p, rng, pos, t).pos;
    assert GraphModelRun(g, t + 1, groupA, groupB, p, rng, pos).pos == Evolve(g, init, Tally(init), p, rng, pos, t + 1).pos;
  }

  /**
   The draw position at which node `n`'s visit starts in step `t` of a run:
   after the draws of the first `t` steps and of the nodes before `n` in step `t`.
   */
  function DrawStart(g: Graph, tMax: nat, groupA: seq<Node>, groupB: seq<Node>, p: real, rng: Rng, pos: nat, n: Node, t: nat): (q: nat)
    requires n <= g.Size()
    requires t <= tMax
    ensures GraphModelRun(g, t, groupA, groupB, p, rng, pos).pos <= q
  {
    var r := GraphModelRun(g, tMax, groupA, groupB, p, rng, pos);
    NodeStart(g, Column(r.states, t), r.data[t], p, rng, GraphModelRun(g, t, groupA, groupB, p, rng, pos).pos, n)
  }

  /** From one snapshot to the next, B is unchanged, U does not grow, and A grows by exactly what U loses. */
  lemma CountsMonotone(g: Graph, tMax: nat, groupA: seq<Node>, groupB: seq<Node>, p: real, rng: Rng, pos: nat, t: nat)
    requires t < tMax
    ensures var r := GraphModelRun(g, tMax, groupA, groupB, p, rng, pos);
      && r.data[t + 1].b == r.data[t].b
      && r.data[t + 1].u <= r.data[t].u
      && r.data[t + 1].a - r.data[t].a == r.data[t].u - r.data[t + 1].u
  {
    RunStep(g, tMax, groupA, groupB, p, rng, pos, t);
  }

  /** When group A holds every node nothing can change: every node is A at every step. */
  lemma {:induction false} AllSeededStates(g: Graph, tMax: nat, groupA: seq<Node>, groupB: seq<Node>, p: real, rng: Rng, pos: nat, t: nat)
    requires forall n: Node :: n < g.Size() ==> n in groupA
    requires t <= tMax
    ensures var r := GraphModelRun(g, tMax, groupA, groupB, p, rng, pos);
      forall n :: 0 <= n < g.Size() ==> r.states[n][t] == InfluenceA
  {
    var r := GraphModelRun(g, tMax, groupA, groupB, p, rng, pos);
    if t == 0 {
      RunColumns(g, tMax, groupA, groupB, p, rng, pos, 0);
      assert Column(r.states, 0) == InitialConfig(g, groupA, groupB);
    } else {
      AllSeededStates(g, tMax, groupA, groupB, p, rng, pos, t - 1);
      forall n | 0 <= n < g.Size()
        ensures r.states[n][t] == InfluenceA
      {
        RunFollowsRule(g, tMax, groupA, groupB, p, rng, pos, n, t - 1);
      }
    }
  }

  /** When group A holds every node, every snapshot is `[0, N, 0]`. */
  lemma AllSeededA(g: Graph, tMax: nat, groupA: seq<Node>, groupB: seq<Node>, p: real, rng: Rng, pos: nat, t: nat)
    requires forall n: Node :: n < g.Size() ==> n in groupA
    requires t <= tMax
    ensures GraphModelRun(g, tMax, groupA, groupB, p, rng, pos).data[t] == Counts(0, g.Size(), 0)
  {
    var r := GraphModelRun(g, tMax, groupA, groupB, p, rng, pos);
    AllSeededStates(g, tMax, groupA, groupB, p, rng, pos, t);
    SnapshotsCountStates(g, tMax, groupA, groupB, p, rng, pos, t);
    assert InStateAt(r, t, Undecided) == {};
    assert InStateAt(r, t, InfluenceB) == {};
  }

  /**
   Node `n` follows the engine's rule from step `t` to `t + 1`, reading the
   states recorded at step `t` only and its draws from `DrawStart`: A and B
   persist; an undecided node turns A exactly when the draw for one of its
   A-neighbours is below `p`, and otherwise stays undecided.
   */
  lemma RunFollowsRule(g: Graph, tMax: nat, groupA: seq<Node>, groupB: seq<Node>, p: real, rng: Rng, pos: nat, n: Node, t: nat)
    requires n < g.Size()
    requires t < tMax
    ensures var r := GraphModelRun(g, tMax, groupA, groupB, p, rng, pos);
      var q := DrawStart(g, tMax, groupA, groupB, p, rng, pos, n, t);
      && r.states[n][t + 1] == VisitNode(g, Column(r.states, t), p, rng, n, q).state
      && Moves(r.states[n][t], r.states[n][t + 1])
      && (r.states[n][t] == Undecided ==>
            (r.states[n][t + 1] == InfluenceA <==> exists j :: Succeeds(Column(r.states, t), g.adj[n], p, rng, q, j)))
      && (r.states[n][t] == Undecided && r.states[n][t + 1] == InfluenceA ==>
            exists j :: 0 <= j < |g.adj[n]| && r.states[g.adj[n][j]][t] == InfluenceA)
  {
    var r := GraphModelRun(g, tMax, groupA, groupB, p, rng, pos);
    var c := Column(r.states, t);
    RunStep(g, tMax, groupA, groupB, p, rng, pos, t);
    StepFate(g, c, r.data[t], p, rng, GraphModelRun(g, t, groupA, groupB, p, rng, pos).pos, n);
  }

  /** A and B states persist from one step to the next; an undecided node can only stay undecided or turn A. */
  lemma StatesPersist(g: Graph, tMax: nat, groupA: seq<Node>, groupB: seq<Node>, p: real, rng: Rng, pos: nat, n: Node, t: nat)
    requires n < g.Size()
    requires t < tMax
    ensures var r := GraphModelRun(g, tMax, groupA, groupB, p, rng, pos);
      && (r.states[n][t] != Undecided ==> r.states[n][t + 1] == r.states[n][t])
      && (r.states[n][t + 1] != r.states[n][t] ==> r.states[n][t + 1] == InfluenceA)
  {
    RunFollowsRule(g, tMax, groupA, groupB, p, rng, pos, n, t);
  }

  /** With `p <= 0` and draws in [0, 1), no node ever changes state and the snapshots stay constant. */
  lemma {:induction false} ZeroProbabilityFreezes(g: Graph, tMax: nat, groupA: seq<Node>, groupB: seq<Node>, p: real, rng: Rng, pos: nat, t: nat)
    requires p <= 0.0
    requires UnitDraws(rng)
    requires t <= tMax
    ensures var r := GraphModelRun(g, tMax, groupA, groupB, p, rng, pos);
      && (forall n :: 0 <= n < g.Size() ==> r.states[n][t] == r.states[n][0])
      && r.data[t] == r.data[0]
  {
    var r := GraphModelRun(g, tMax, groupA, groupB, p, rng, pos);
    if t > 0 {
      ZeroProbabilityFreezes(g, tMax, groupA, groupB, p, rng, pos, t - 1);
      forall n | 0 <= n < g.Size()
        ensures r.states[n][t] == r.states[n][t - 1]
      {
        RunFollowsRule(g, tMax, groupA, groupB, p, rng, pos, n, t - 1);
      }
      RunTally(g, tMax, groupA, groupB, p, rng, pos, t);
      RunTally(g, tMax, groupA, groupB, p, rng, pos, 0);
      assert Column(r.states, t) == Column(r.states, 0);
    }
  }

  /**
   When every draw is below `p`, an undecided node with a neighbour in state
   A at step `t` is in state A at step `t + 1`.
   */
  lemma CertainTransmission(g: Graph, tMax: nat, groupA: seq<Node>, groupB: seq<Node>, p: real, rng: Rng, pos: nat, n: Node, t: nat, j: nat)
    requires forall k :: rng.uniform(k) < p
    requires n < g.Size()
    requires t < tMax
    requires j < |g.adj[n]|
    requires var r := GraphModelRun(g, tMax, groupA, groupB, p, rng, pos);
      r.states[n][t] == Undecided && r.states[g.adj[n][j]][t] == InfluenceA
    ensures var r := GraphModelRun(g, tMax, groupA, groupB, p, rng, pos);
      r.states[n][t + 1] == InfluenceA
  {
    var r := GraphModelRun(g, tMax, groupA, groupB, p, rng, pos);
    var c := Column(r.states, t);
    RunFollowsRule(g, tMax, groupA, groupB, p, rng, pos, n, t);
    ScanCertain(c, g.adj[n], p, rng, DrawStart(g, tMax, groupA, groupB, p, rng, pos, n, t), j);
  }

  /** The ring 0-1-2-3-0, each node listing its neighbours in the order the ring's edges were added. */
  function Ring(): (g: Graph)
    ensures g.Size() == 4
  {
    RawGraph([[1, 3], [0, 2], [1, 3], [2, 0]])
  }

  /** The ring scenario's inputs: the ring's adjacency, two steps, node 0 in A, node 2 in B, every draw below `p`. */
  ghost predicate RingSetup(g: Graph, tMax: nat, groupA: seq<Node>, groupB: seq<Node>, p: real, rng: Rng) {
    && g.adj == [[1, 3], [0, 2], [1, 3], [2, 0]]
    && tMax == 2 && groupA == [0] && groupB == [2]
    && forall k :: rng.uniform(k) < p
  }

  lemma RingStart(g: Graph, tMax: nat, groupA: seq<Node>, groupB: seq<Node>, p: real, rng: Rng, pos: nat)
    requires RingSetup(g, tMax, groupA, groupB, p, rng)
    ensures var r := GraphModelRun(g, tMax, groupA, groupB, p, rng, pos);
      r.states[0][0] == InfluenceA && r.states[1][0] == Undecided && r.states[2][0] == InfluenceB && r.states[3][0] == Undecided
  {
    var r := GraphModelRun(g, tMax, groupA, groupB, p, rng, pos);
    RunColumns(g, tMax, groupA, groupB, p, rng, pos, 0);
    assert Column(r.states, 0)[0] == InfluenceA && Column(r.states, 0)[2] == InfluenceB;
    assert Column(r.states, 0)[1] == Undecided && Column(r.states, 0)[3] == Undecided;
  }

  lemma RingStates(g: Graph, tMax: nat, groupA: seq<Node>, groupB: seq<Node>, p: real, rng: Rng, pos: nat)
    requires RingSetup(g, tMax, groupA, groupB, p, rng)
    ensures var r := GraphModelRun(g, tMax, groupA, groupB, p, rng, pos);
      && r.states[1][1] == InfluenceA && r.states[3][1] == InfluenceA
      && (forall t :: 0 <= t <= 2 ==> r.states[2][t] == InfluenceB)
      && r.states[0][2] == InfluenceA && r.states[1][2] == InfluenceA && r.states[3][2] == InfluenceA
  {
    RingStart(g, tMax, groupA, groupB, p, rng, pos);
    CertainTransmission(g, tMax, groupA, groupB, p, rng, pos, 1, 0, 0);
    CertainTransmission(g, tMax, groupA, groupB, p, rng, pos, 3, 0, 1);
    StatesPersist(g, tMax, groupA, groupB, p, rng, pos, 0, 0);
    StatesPersist(g, tMax, groupA, groupB, p, rng, pos, 2, 0);
    StatesPersist(g, tMax, groupA, groupB, p, rng, pos, 0, 1);
    StatesPersist(g, tMax, groupA, groupB, p, rng, pos, 1, 1);
    StatesPersist(g, tMax, groupA, groupB, p, rng, pos, 2, 1);
    StatesPersist(g, tMax, groupA, groupB, p, rng, pos, 3, 1);
  }

  /** Counting the ring's final states: nodes 0, 1 and 3 in A and node 2 in B. */
  lemma RingFinalCounts(r: Run)
    requires |r.states| == 4 && forall n :: 0 <= n < 4 ==> |r.states[n]| == 3
    requires r.states[0][2] == InfluenceA && r.states[1][2] == InfluenceA && r.states[3][2] == InfluenceA
    requires r.states[2][2] == InfluenceB
    ensures |InStateAt(r, 2, Undecided)| == 0
    ensures |InStateAt(r, 2, InfluenceA)| == 3
    ensures |InStateAt(r, 2, InfluenceB)| == 1
  {
    assert InStateAt(r, 2, Undecided) == {};
    assert InStateAt(r, 2, InfluenceA) == {0, 1, 3};
    assert InStateAt(r, 2, InfluenceB) == {2};
  }

  /**
   The ring scenario for any graph with the ring's shape: seeded with node 0
   in A and node 2 in B, with every draw below `p`, nodes 1 and 3 turn A at
   step 1, node 2 stays B, and the final snapshot after two steps is `[0, 3, 1]`.
   */
  lemma RingSpread(g: Graph, tMax: nat, groupA: seq<Node>, groupB: seq<Node>, p: real, rng: Rng, pos: nat)
    requires RingSetup(g, tMax, groupA, groupB, p, rng)
    ensures var r := GraphModelRun(g, tMax, groupA, groupB, p, rng, pos);
      && r.states[1][1] == InfluenceA && r.states[3][1] == InfluenceA
      && (forall t :: 0 <= t <= 2 ==> r.states[2][t] == InfluenceB)
      && r.data[2] == Counts(0, 3, 1)
  {
    var r := GraphModelRun(g, tMax, groupA, groupB, p, rng, pos);
    RingStates(g, tMax, groupA, groupB, p, rng, pos);
    SnapshotsCountStates(g, tMax, groupA, groupB, p, rng, pos, 2);
    RingFinalCounts(r);
  }

  /** The ring 0-1-2-3-0 with `p = 1` and draws in [0, 1). */
  lemma RingScenario(rng: Rng, pos: nat)
    requires UnitDraws(rng)
    ensures var r := GraphModelRun(Ring(), 2, [0], [2], 1.0, rng, pos);
      && r.states[1][1] == InfluenceA && r.states[3][1] == InfluenceA
      && (forall t :: 0 <= t <= 2 ==> r.states[2][t] == InfluenceB)
      && r.data[2] == Counts(0, 3, 1)
  {
    RingSpread(Ring(), 2, [0], [2], 1.0, rng, pos);
  }
}
