/**
 The diffusion engine `graphModelRun`: seed the initial states, then for
 `tMax` synchronous steps let every undecided node scan its neighbours in
 adjacency order, taking one random draw per neighbour that was in state A
 at the current step, and turn A at the next step on the first draw below
 `p`. The per-node state history is returned instead of being stored on the
 graph, together with the series of `[U, A, B]` snapshots kept incrementally
 the way the engine keeps them.
 */
module Engine {
  import opened Types
  import opened Snapshots

  /* ---------------------------------------------------------------------
     Counting states
     --------------------------------------------------------------------- */

  /** How many nodes are in state `s` under `c`, counted in node order. */
  function Count(c: Config, s: State): nat {
    if |c| == 0 then 0
    else Count(c[..|c| - 1], s) + (if c[|c| - 1] == s then 1 else 0)
  }

  /** The snapshot obtained by visiting the nodes in order and counting each one's state. */
  function Tally(c: Config): Counts {
    Counts(Count(c, Undecided), Count(c, InfluenceA), Count(c, InfluenceB))
  }

  /** The nodes in state `s` under `c`. */
  ghost function Where(c: Config, s: State): set<Node> {
    set n: Node | n < |c| && c[n] == s
  }

  /** Appending a node to a configuration adds it to the nodes in its state only. */
  lemma WhereLast(c: Config, s: State)
    requires |c| > 0
    ensures Where(c, s) == Where(c[..|c| - 1], s) + (if c[|c| - 1] == s then {|c| - 1} else {})
  {
  }

  /** A tally counts, for each state, exactly the nodes in that state. */
  lemma {:induction false} TallyCountsNodes(c: Config, s: State)
    ensures Tally(c).Of(s) == |Where(c, s)|
    decreases |c|
  {
    if |c| > 0 {
      TallyCountsNodes(c[..|c| - 1], s);
      WhereLast(c, s);
    }
  }

  /** Tallying a configuration extended by one node adds that node's state. */
  lemma TallyAppend(c: Config, s: State)
    ensures Tally(c + [s]) == Tally(c).Plus(Unit(s))
  {
    assert (c + [s])[..|c|] == c;
  }

  /** Tallying one more node of a configuration adds that node's state. */
  lemma TallyPrefix(c: Config, k: nat)
    requires 0 < k <= |c|
    ensures Tally(c[..k]) == Tally(c[..k - 1]).Plus(Unit(c[k - 1]))
  {
    assert c[..k][..k - 1] == c[..k - 1];
  }

  lemma FullPrefix(c: Config)
    ensures c[..|c|] == c
  {
  }

  /** A tally accounts for every node exactly once. */
  lemma {:induction false} TallyTotal(c: Config)
    ensures Tally(c).Total() == |c|
    decreases |c|
  {
    if |c| > 0 {
      var rest := c[..|c| - 1];
      TallyTotal(rest);
      assert Count(c, Undecided) + Count(c, InfluenceA) + Count(c, InfluenceB)
          == Count(rest, Undecided) + Count(rest, InfluenceA) + Count(rest, InfluenceB) + 1;
    }
  }

  /* ---------------------------------------------------------------------
     Initial state
     --------------------------------------------------------------------- */

  /** Group A takes precedence over group B; every other node starts undecided. */
  function InitialState(n: Node, groupA: seq<Node>, groupB: seq<Node>): (s: State)
    ensures s == InfluenceA <==> n in groupA
    ensures s == InfluenceB <==> n !in groupA && n in groupB
    ensures s == Undecided <==> n !in groupA && n !in groupB
  {
    if n in groupA then InfluenceA
    else if n in groupB then InfluenceB
    else Undecided
  }

  function InitialConfig(g: Graph, groupA: seq<Node>, groupB: seq<Node>): (c: Config)
    ensures |c| == g.Size()
    ensures forall n :: 0 <= n < |c| ==> c[n] == InitialState(n, groupA, groupB)
  {
    seq(g.Size(), n requires 0 <= n < g.Size() => InitialState(n, groupA, groupB))
  }

  /* ---------------------------------------------------------------------
     Scanning the neighbours of one undecided node
     --------------------------------------------------------------------- */

  /** How many of `nbrs` are in state A under `cur`: the draws a scan without success takes. */
  function Exposures(cur: Config, nbrs: seq<Node>): (k: nat)
    requires Within(nbrs, |cur|)
    ensures k <= |nbrs|
  {
    if |nbrs| == 0 then 0
    else (if cur[nbrs[0]] == InfluenceA then 1 else 0) + Exposures(cur, nbrs[1..])
  }

  datatype Scan = Scan(infected: bool, pos: nat)

  /**
   The inner loop of one step for an undecided node: walk the neighbours in
   order, draw once for every neighbour in state A at the current step, and
   stop at the first draw below `p`.
   */
  function ScanNeighbours(cur: Config, nbrs: seq<Node>, p: real, rng: Rng, pos: nat): (r: Scan)
    requires Within(nbrs, |cur|)
    ensures pos <= r.pos <= pos + Exposures(cur, nbrs)
    ensures !r.infected ==> r.pos == pos + Exposures(cur, nbrs)
    ensures r.infected ==> pos < r.pos && rng.uniform(r.pos - 1) < p
    ensures r.infected ==> exists j :: 0 <= j < |nbrs| && cur[nbrs[j]] == InfluenceA
    decreases |nbrs|
  {
    if |nbrs| == 0 then Scan(false, pos)
    else if cur[nbrs[0]] == InfluenceA then
      if rng.uniform(pos) < p then Scan(true, pos + 1)
      else ScanNeighbours(cur, nbrs[1..], p, rng, pos + 1)
    else ScanNeighbours(cur, nbrs[1..], p, rng, pos)
  }

  /** The draw taken for neighbour `j` (the draw after those for the A-neighbours before it) is below `p`. */
  ghost predicate Succeeds(cur: Config, nbrs: seq<Node>, p: real, rng: Rng, pos: nat, j: int)
    requires Within(nbrs, |cur|)
  {
    && 0 <= j < |nbrs|
    && cur[nbrs[j]] == InfluenceA
    && rng.uniform(pos + Exposures(cur, nbrs[..j])) < p
  }

  ghost predicate FirstSuccess(cur: Config, nbrs: seq<Node>, p: real, rng: Rng, pos: nat, j: int)
    requires Within(nbrs, |cur|)
  {
    && Succeeds(cur, nbrs, p, rng, pos, j)
    && forall i :: 0 <= i < j ==> !Succeeds(cur, nbrs, p, rng, pos, i)
  }

  lemma ExposuresShift(cur: Config, nbrs: seq<Node>, j: nat)
    requires Within(nbrs, |cur|)
    requires j < |nbrs|
    ensures Exposures(cur, nbrs[..j + 1]) == (if cur[nbrs[0]] == InfluenceA then 1 else 0) + Exposures(cur, nbrs[1..][..j])
  {
    assert nbrs[..j + 1][1..] == nbrs[1..][..j];
  }

  lemma SucceedsShift(cur: Config, nbrs: seq<Node>, p: real, rng: Rng, pos: nat, j: nat)
    requires Within(nbrs, |cur|)
    requires |nbrs| > 0
    ensures var pos' := pos + (if cur[nbrs[0]] == InfluenceA then 1 else 0);
      Succeeds(cur, nbrs, p, rng, pos, j + 1) <==> Succeeds(cur, nbrs[1..], p, rng, pos', j)
  {
    if j + 1 < |nbrs| {
      ExposuresShift(cur, nbrs, j);
    }
  }

  lemma FirstSuccessShift(cur: Config, nbrs: seq<Node>, p: real, rng: Rng, pos: nat, j: nat)
    requires Within(nbrs, |cur|)
    requires |nbrs| > 0
    requires !Succeeds(cur, nbrs, p, rng, pos, 0)
    requires FirstSuccess(cur, nbrs[1..], p, rng, pos + (if cur[nbrs[0]] == InfluenceA then 1 else 0), j)
    ensures FirstSuccess(cur, nbrs, p, rng, pos, j + 1)
  {
    SucceedsShift(cur, nbrs, p, rng, pos, j);
    forall i | 0 <= i < j + 1
      ensures !Succeeds(cur, nbrs, p, rng, pos, i)
    {
      if i > 0 {
        SucceedsShift(cur, nbrs, p, rng, pos, i - 1);
      }
    }
  }

  lemma {:induction false} ScanMisses(cur: Config, nbrs: seq<Node>, p: real, rng: Rng, pos: nat, j: int)
    requires Within(nbrs, |cur|)
    requires !ScanNeighbours(cur, nbrs, p, rng, pos).infected
    ensures !Succeeds(cur, nbrs, p, rng, pos, j)
    decreases |nbrs|
  {
    if 0 <= j < |nbrs| {
      assert nbrs[..0] == [];
      var pos' := pos + (if cur[nbrs[0]] == InfluenceA then 1 else 0);
      if j > 0 {
        SucceedsShift(cur, nbrs, p, rng, pos, j - 1);
        ScanMisses(cur, nbrs[1..], p, rng, pos', j - 1);
      }
    }
  }

  lemma {:induction false} ScanHits(cur: Config, nbrs: seq<Node>, p: real, rng: Rng, pos: nat) returns (j: nat)
    requires Within(nbrs, |cur|)
    requires ScanNeighbours(cur, nbrs, p, rng, pos).infected
    ensures FirstSuccess(cur, nbrs, p, rng, pos, j)
    ensures ScanNeighbours(cur, nbrs, p, rng, pos).pos == pos + Exposures(cur, nbrs[..j]) + 1
    decreases |nbrs|
  {
    assert nbrs[..0] == [];
    var isA := cur[nbrs[0]] == InfluenceA;
    if isA && rng.uniform(pos) < p {
      j := 0;
    } else {
      var pos' := pos + (if isA then 1 else 0);
      assert !Succeeds(cur, nbrs, p, rng, pos, 0);
      var j' := ScanHits(cur, nbrs[1..], p, rng, pos');
      j := j' + 1;
      FirstSuccessShift(cur, nbrs, p, rng, pos, j');
      ExposuresShift(cur, nbrs, j');
    }
  }

  /**
   A scan infects exactly when the draw for some A-neighbour is below `p`;
   it then stops at the first such neighbour, having drawn once for it and
   once for every A-neighbour before it and for no neighbour after it.
   */
  lemma ScanDecides(cur: Config, nbrs: seq<Node>, p: real, rng: Rng, pos: nat)
    requires Within(nbrs, |cur|)
    ensures var r := ScanNeighbours(cur, nbrs, p, rng, pos);
      r.infected <==> exists j :: Succeeds(cur, nbrs, p, rng, pos, j)
    ensures var r := ScanNeighbours(cur, nbrs, p, rng, pos);
      r.infected ==> exists j :: FirstSuccess(cur, nbrs, p, rng, pos, j) && r.pos == pos + Exposures(cur, nbrs[..j]) + 1
  {
    if ScanNeighbours(cur, nbrs, p, rng, pos).infected {
      var j := ScanHits(cur, nbrs, p, rng, pos);
    } else {
      forall j | Succeeds(cur, nbrs, p, rng, pos, j)
        ensures false
      {
        ScanMisses(cur, nbrs, p, rng, pos, j);
      }
    }
  }

  /** When every draw is below `p`, a node with an A-neighbour is infected by the scan. */
  lemma {:induction false} ScanCertain(cur: Config, nbrs: seq<Node>, p: real, rng: Rng, pos: nat, j: nat)
    requires Within(nbrs, |cur|)
    requires forall k :: rng.uniform(k) < p
    requires j < |nbrs| && cur[nbrs[j]] == InfluenceA
    ensures ScanNeighbours(cur, nbrs, p, rng, pos).infected
    decreases |nbrs|
  {
    if cur[nbrs[0]] != InfluenceA {
      ScanCertain(cur, nbrs[1..], p, rng, pos, j - 1);
    }
  }

  /* ---------------------------------------------------------------------
     One synchronous step
     --------------------------------------------------------------------- */

  datatype Visit = Visit(state: State, pos: nat)

  /**
   What the engine does with node `n` during one step, its draws starting at
   position `q`: an A or B node keeps its state without drawing; an undecided
   node scans its neighbours and turns A when the scan succeeds.
   */
  function VisitNode(g: Graph, cur: Config, p: real, rng: Rng, n: Node, q: nat): (v: Visit)
    requires |cur| == g.Size()
    requires n < |cur|
    ensures Moves(cur[n], v.state)
    ensures q <= v.pos
    ensures cur[n] != Undecided ==> v.pos == q
  {
    if cur[n] != Undecided then Visit(cur[n], q)
    else
      var s := ScanNeighbours(cur, g.adj[n], p, rng, q);
      Visit(if s.infected then InfluenceA else Undecided, s.pos)
  }

  datatype Sweep = Sweep(next: Config, counts: Counts, pos: nat)

  /**
   The engine's pass over the first `k` nodes in iteration order during one
   step: the next-step states of those nodes, the running `[U, A, B]` counts
   (one node moves from U to A for every successful scan) and the draw
   position reached.
   */
  function SweepNodes(g: Graph, cur: Config, counts: Counts, p: real, rng: Rng, pos: nat, k: nat): (r: Sweep)
    requires |cur| == g.Size()
    requires k <= |cur|
    ensures |r.next| == k
    ensures r.counts.b == counts.b && r.counts.u <= counts.u
    ensures r.counts.a - counts.a == counts.u - r.counts.u
    ensures pos <= r.pos
    decreases k
  {
    if k == 0 then Sweep([], counts, pos)
    else
      var prev := SweepNodes(g, cur, counts, p, rng, pos, k - 1);
      var v := VisitNode(g, cur, p, rng, k - 1, prev.pos);
      var counts' := if v.state == cur[k - 1] then prev.counts
                     else Counts(prev.counts.u - 1, prev.counts.a + 1, prev.counts.b);
      Sweep(prev.next + [v.state], counts', v.pos)
  }

  /** Visiting node `k - 1` appends its next state and, when that state is new, moves the node from U to A. */
  lemma SweepLast(g: Graph, cur: Config, counts: Counts, p: real, rng: Rng, pos: nat, k: nat)
    requires |cur| == g.Size()
    requires 0 < k <= |cur|
    ensures var prev := SweepNodes(g, cur, counts, p, rng, pos, k - 1);
      var s := VisitNode(g, cur, p, rng, k - 1, prev.pos).state;
      var r := SweepNodes(g, cur, counts, p, rng, pos, k);
      && r.next == prev.next + [s]
      && r.counts == (if s == cur[k - 1] then prev.counts else Counts(prev.counts.u - 1, prev.counts.a + 1, prev.counts.b))
  {
  }

  /** The induction step of `SweepTally`, stated over the sweep results alone. */
  lemma SweepTallyStep(cur: Config, k: nat, counts: Counts, prev: Sweep, r: Sweep, s: State)
    requires 0 < k <= |cur|
    requires prev.counts.Plus(Tally(cur[..k - 1])) == counts.Plus(Tally(prev.next))
    requires r.next == prev.next + [s]
    requires Moves(cur[k - 1], s)
    requires r.counts == (if s == cur[k - 1] then prev.counts else Counts(prev.counts.u - 1, prev.counts.a + 1, prev.counts.b))
    ensures r.counts.Plus(Tally(cur[..k])) == counts.Plus(Tally(r.next))
  {
    MoveCounts(prev.counts, r.counts, cur[k - 1], s);
    TallyAppend(prev.next, s);
    TallyPrefix(cur, k);
    ExchangeCounts(counts, prev.counts, r.counts, Tally(cur[..k - 1]), Tally(prev.next), cur[k - 1], s);
  }

  /**
   The draw position at which node `n`'s visit starts in a step begun at
   `pos`: where the visits of the nodes before it, in iteration order, left off.
   */
  function NodeStart(g: Graph, cur: Config, counts: Counts, p: real, rng: Rng, pos: nat, n: nat): (q: nat)
    requires |cur| == g.Size()
    requires n <= |cur|
    ensures pos <= q
  {
    SweepNodes(g, cur, counts, p, rng, pos, n).pos
  }

  /**
   Every node the sweep has visited gets its next state from the engine's
   rule applied to the current configuration, reading its draws from where
   the nodes before it stopped; the next node starts where it stops.
   */
  lemma {:induction false} SweepFate(g: Graph, cur: Config, counts: Counts, p: real, rng: Rng, pos: nat, k: nat, i: nat)
    requires |cur| == g.Size()
    requires i < k <= |cur|
    ensures SweepNodes(g, cur, counts, p, rng, pos, k).next[i] == VisitNode(g, cur, p, rng, i, NodeStart(g, cur, counts, p, rng, pos, i)).state
    ensures NodeStart(g, cur, counts, p, rng, pos, i + 1) == VisitNode(g, cur, p, rng, i, NodeStart(g, cur, counts, p, rng, pos, i)).pos
    decreases k
  {
    var prev := SweepNodes(g, cur, counts, p, rng, pos, k - 1);
    if i < k - 1 {
      SweepFate(g, cur, counts, p, rng, pos, k - 1, i);
      assert SweepNodes(g, cur, counts, p, rng, pos, k).next[i] == prev.next[i];
    } else {
      assert SweepNodes(g, cur, counts, p, rng, pos, k).next[i] == VisitNode(g, cur, p, rng, i, prev.pos).state;
    }
  }

  /** The incremental counts of a sweep change by exactly the difference between the tallies of the new and old states of the visited nodes. */
  lemma {:induction false} SweepTally(g: Graph, cur: Config, counts: Counts, p: real, rng: Rng, pos: nat, k: nat)
    requires |cur| == g.Size()
    requires k <= |cur|
    ensures var r := SweepNodes(g, cur, counts, p, rng, pos, k);
      r.counts.Plus(Tally(cur[..k])) == counts.Plus(Tally(r.next))
    decreases k
  {
    if k > 0 {
      var r := SweepNodes(g, cur, counts, p, rng, pos, k);
      var prev := SweepNodes(g, cur, counts, p, rng, pos, k - 1);
      var s := VisitNode(g, cur, p, rng, k - 1, prev.pos).state;
      SweepTally(g, cur, counts, p, rng, pos, k - 1);
      SweepLast(g, cur, counts, p, rng, pos, k);
      SweepTallyStep(cur, k, counts, prev, r, s);
    } else {
      assert cur[..0] == [];
    }
  }

  /** One full step of the simulation: every node of the graph swept once, in order. */
  function Step(g: Graph, cur: Config, counts: Counts, p: real, rng: Rng, pos: nat): (r: Sweep)
    requires |cur| == g.Size()
    ensures |r.next| == |cur|
    ensures r.counts.b == counts.b && r.counts.u <= counts.u
    ensures r.counts.a - counts.a == counts.u - r.counts.u
    ensures pos <= r.pos
  {
    SweepNodes(g, cur, counts, p, rng, pos, |cur|)
  }

  /**
   In a step every node follows the engine's rule, reading its draws from
   where the nodes before it stopped: A and B nodes keep their state; an
   undecided node turns A exactly when the draw for one of its A-neighbours is
   below `p`, and otherwise stays undecided.
   */
  lemma StepFate(g: Graph, cur: Config, counts: Counts, p: real, rng: Rng, pos: nat, n: Node)
    requires |cur| == g.Size()
    requires n < |cur|
    ensures var next := Step(g, cur, counts, p, rng, pos).next;
      var q := NodeStart(g, cur, counts, p, rng, pos, n);
      && next[n] == VisitNode(g, cur, p, rng, n, q).state
      && Moves(cur[n], next[n])
      && (cur[n] == Undecided ==> (next[n] == InfluenceA <==> exists j :: Succeeds(cur, g.adj[n], p, rng, q, j)))
      && (cur[n] == Undecided && next[n] == InfluenceA ==> exists j :: 0 <= j < |g.adj[n]| && cur[g.adj[n][j]] == InfluenceA)
  {
    SweepFate(g, cur, counts, p, rng, pos, |cur|, n);
    ScanDecides(cur, g.adj[n], p, rng, NodeStart(g, cur, counts, p, rng, pos, n));
  }

  /**
   The draws node `n` takes in a step: none when it is A or B; one for each
   A-neighbour when its scan fails; and, when it turns A, one for each
   A-neighbour up to and including the first whose draw is below `p`.
   */
  lemma NodeDraws(g: Graph, cur: Config, counts: Counts, p: real, rng: Rng, pos: nat, n: Node)
    requires |cur| == g.Size()
    requires n < |cur|
    ensures var next := Step(g, cur, counts, p, rng, pos).next;
      var q := NodeStart(g, cur, counts, p, rng, pos, n);
      var q' := NodeStart(g, cur, counts, p, rng, pos, n + 1);
      && (cur[n] != Undecided ==> q' == q)
      && (cur[n] == Undecided && next[n] == Undecided ==> q' == q + Exposures(cur, g.adj[n]))
      && (cur[n] == Undecided && next[n] == InfluenceA ==>
            exists j :: FirstSuccess(cur, g.adj[n], p, rng, q, j) && q' == q + Exposures(cur, g.adj[n][..j]) + 1)
  {
    SweepFate(g, cur, counts, p, rng, pos, |cur|, n);
    ScanDecides(cur, g.adj[n], p, rng, NodeStart(g, cur, counts, p, rng, pos, n));
  }

  /** The star with centre 0 and leaves 1 and 2. */
  function Star(): (g: Graph)
    ensures g.Size() == 3
  {
    RawGraph([[1, 2], [0], [0]])
  }

  /** The visits of the star's nodes under `[A, U, U]`, `p = 0.5` and draws `0.9, 0.1`, each from where the one before stopped. */
  lemma StarVisits(rng: Rng)
    requires rng.uniform(0) == 0.9 && rng.uniform(1) == 0.1
    ensures var cur := [InfluenceA, Undecided, Undecided];
      && VisitNode(Star(), cur, 0.5, rng, 0, 0) == Visit(InfluenceA, 0)
      && VisitNode(Star(), cur, 0.5, rng, 1, 0) == Visit(Undecided, 1)
      && VisitNode(Star(), cur, 0.5, rng, 2, 1).state == InfluenceA
  {
    var cur := [InfluenceA, Undecided, Undecided];
    assert ScanNeighbours(cur, [0], 0.5, rng, 0) == Scan(false, 1);
    assert ScanNeighbours(cur, [0], 0.5, rng, 1) == Scan(true, 2);
  }

  /**
   Draws are read in node order: on the star under `[A, U, U]`, node 1 reads
   the first draw and node 2 the second, so draws `0.9, 0.1` with `p = 0.5`
   leave node 1 undecided and turn node 2 A.
   */
  lemma StarDrawOrder(rng: Rng, counts: Counts)
    requires rng.uniform(0) == 0.9 && rng.uniform(1) == 0.1
    ensures Step(Star(), [InfluenceA, Undecided, Undecided], counts, 0.5, rng, 0).next
         == [InfluenceA, Undecided, InfluenceA]
  {
    var cur := [InfluenceA, Undecided, Undecided];
    var next := Step(Star(), cur, counts, 0.5, rng, 0).next;
    StarVisits(rng);
    SweepFate(Star(), cur, counts, 0.5, rng, 0, 3, 0);
    SweepFate(Star(), cur, counts, 0.5, rng, 0, 3, 1);
    SweepFate(Star(), cur, counts, 0.5, rng, 0, 3, 2);
    assert NodeStart(Star(), cur, counts, 0.5, rng, 0, 0) == 0;
    assert next == [next[0], next[1], next[2]];
  }

  /** A step keeps the running counts equal to the tally of the configuration. */
  lemma StepTally(g: Graph, cur: Config, counts: Counts, p: real, rng: Rng, pos: nat)
    requires |cur| == g.Size()
    requires counts == Tally(cur)
    ensures var r := Step(g, cur, counts, p, rng, pos);
      r.counts == Tally(r.next)
  {
    SweepTally(g, cur, counts, p, rng, pos, |cur|);
    FullPrefix(cur);
  }

  /* ---------------------------------------------------------------------
     The run
     --------------------------------------------------------------------- */

  /** The configurations and snapshots of `steps` further steps, starting with the current ones. */
  datatype Trajectory = Trajectory(configs: seq<Config>, data: seq<Counts>, pos: nat)

  function Evolve(g: Graph, cur: Config, counts: Counts, p: real, rng: Rng, pos: nat, steps: nat): (r: Trajectory)
    requires |cur| == g.Size()
    ensures |r.configs| == steps + 1 && |r.data| == steps + 1
    ensures r.configs[0] == cur && r.data[0] == counts
    ensures forall t :: 0 <= t <= steps ==> |r.configs[t]| == g.Size()
    ensures pos <= r.pos
    decreases steps
  {
    if steps == 0 then Trajectory([cur], [counts], pos)
    else
      var s := Step(g, cur, counts, p, rng, pos);
      var rest := Evolve(g, s.next, s.counts, p, rng, s.pos, steps - 1);
      Trajectory([cur] + rest.configs, [counts] + rest.data, rest.pos)
  }

  /** Configuration `c'` with counts `k'` is what one step makes of `c` with counts `k`, its draws starting at position `q`. */
  ghost predicate StepsTo(g: Graph, p: real, rng: Rng, c: Config, k: Counts, q: nat, c': Config, k': Counts) {
    && |c| == g.Size()
    && Step(g, c, k, p, rng, q).next == c' && Step(g, c, k, p, rng, q).counts == k'
  }

  /** A longer trajectory from the same start agrees with a shorter one on every entry they share. */
  lemma {:induction false} EvolvePrefix(g: Graph, cur: Config, counts: Counts, p: real, rng: Rng, pos: nat, steps: nat, t: nat)
    requires |cur| == g.Size()
    requires t <= steps
    ensures var r, r' := Evolve(g, cur, counts, p, rng, pos, steps), Evolve(g, cur, counts, p, rng, pos, t);
      r.configs[t] == r'.configs[t] && r.data[t] == r'.data[t]
    decreases t
  {
    if t > 0 {
      var s := Step(g, cur, counts, p, rng, pos);
      EvolvePrefix(g, s.next, s.counts, p, rng, s.pos, steps - 1, t - 1);
    }
  }

  /** The last step of a trajectory of `t + 1` steps is one step from where the trajectory of `t` steps ends. */
  lemma {:induction false} EvolveLast(g: Graph, cur: Config, counts: Counts, p: real, rng: Rng, pos: nat, t: nat)
    requires |cur| == g.Size()
    ensures var r, r' := Evolve(g, cur, counts, p, rng, pos, t), Evolve(g, cur, counts, p, rng, pos, t + 1);
      Step(g, r.configs[t], r.data[t], p, rng, r.pos) == Sweep(r'.configs[t + 1], r'.data[t + 1], r'.pos)
    decreases t
  {
    if t > 0 {
      var s := Step(g, cur, counts, p, rng, pos);
      EvolveLast(g, s.next, s.counts, p, rng, s.pos, t - 1);
    }
  }

  /**
   Consecutive entries of a trajectory are related by one step, and step `t`
   reads its draws from where a trajectory of `t` steps ends.
   */
  lemma EvolveStepwise(g: Graph, cur: Config, counts: Counts, p: real, rng: Rng, pos: nat, steps: nat, t: nat)
    requires |cur| == g.Size()
    requires t < steps
    ensures var r := Evolve(g, cur, counts, p, rng, pos, steps);
      StepsTo(g, p, rng, r.configs[t], r.data[t], Evolve(g, cur, counts, p, rng, pos, t).pos, r.configs[t + 1], r.data[t + 1])
  {
    EvolvePrefix(g, cur, counts, p, rng, pos, steps, t);
    EvolvePrefix(g, cur, counts, p, rng, pos, steps, t + 1);
    EvolveLast(g, cur, counts, p, rng, pos, t);
  }

  /** Step `t` of a trajectory stops drawing where a trajectory of `t + 1` steps ends. */
  lemma EvolveDraws(g: Graph, cur: Config, counts: Counts, p: real, rng: Rng, pos: nat, steps: nat, t: nat)
    requires |cur| == g.Size()
    requires t < steps
    ensures var r := Evolve(g, cur, counts, p, rng, pos, steps);
      Evolve(g, cur, counts, p, rng, pos, t + 1).pos == Step(g, r.configs[t], r.data[t], p, rng, Evolve(g, cur, counts, p, rng, pos, t).pos).pos
  {
    EvolvePrefix(g, cur, counts, p, rng, pos, steps, t);
    EvolveLast(g, cur, counts, p, rng, pos, t);
  }

  /** Per node, its state at every step of the trajectory. */
  function Histories(g: Graph, configs: seq<Config>): (h: seq<seq<State>>)
    requires forall t :: 0 <= t < |configs| ==> |configs[t]| == g.Size()
    ensures |h| == g.Size()
    ensures forall n :: 0 <= n < |h| ==> |h[n]| == |configs|
    ensures forall n, t :: 0 <= n < |h| && 0 <= t < |configs| ==> h[n][t] == configs[t][n]
  {
    seq(g.Size(), n requires 0 <= n < g.Size() =>
      seq(|configs|, t requires 0 <= t < |configs| => configs[t][n]))
  }

  /** What one engine run returns: the snapshot series, each node's state history and the next draw position. */
  datatype Run = Run(data: seq<Counts>, states: seq<seq<State>>, pos: nat)

  /** The trajectory a run follows from its seeded initial configuration. */
  function RunTrajectory(g: Graph, tMax: nat, groupA: seq<Node>, groupB: seq<Node>, p: real, rng: Rng, pos: nat): (r: Trajectory)
    ensures |r.configs| == tMax + 1 && |r.data| == tMax + 1
    ensures forall t :: 0 <= t <= tMax ==> |r.configs[t]| == g.Size()
    ensures r.configs[0] == InitialConfig(g, groupA, groupB)
    ensures r.data[0] == Tally(r.configs[0])
  {
    var init := InitialConfig(g, groupA, groupB);
    Evolve(g, init, Tally(init), p, rng, pos, tMax)
  }

  /**
   `graphModelRun(G, tMax, groupA, groupB, p)`, reading its draws from
   `rng` starting at position `pos`.
   */
  function GraphModelRun(g: Graph, tMax: nat, groupA: seq<Node>, groupB: seq<Node>, p: real, rng: Rng, pos: nat): (r: Run)
    ensures |r.data| == tMax + 1
    ensures |r.states| == g.Size()
    ensures forall n :: 0 <= n < |r.states| ==> |r.states[n]| == tMax + 1
    ensures pos <= r.pos
  {
    var traj := RunTrajectory(g, tMax, groupA, groupB, p, rng, pos);
    Run(traj.data, Histories(g, traj.configs), traj.pos)
  }
  /**
   The engine sees its seed groups only through which of the graph's nodes
   they hold, and group B only for the nodes outside group A.
   */
  lemma SeedsByMembership(g: Graph, tMax: nat, groupA: seq<Node>, groupB: seq<Node>, groupA': seq<Node>, groupB': seq<Node>, p: real, rng: Rng, pos: nat)
    requires forall n: Node :: n < g.Size() ==> (n in groupA <==> n in groupA')
    requires forall n: Node :: n < g.Size() && n !in groupA ==> (n in groupB <==> n in groupB')
    ensures GraphModelRun(g, tMax, groupA, groupB, p, rng, pos) == GraphModelRun(g, tMax, groupA', groupB', p, rng, pos)
  {
    assert InitialConfig(g, groupA, groupB) == InitialConfig(g, groupA', groupB');
  }

}
