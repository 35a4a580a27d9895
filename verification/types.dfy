/**
 The vocabulary shared by the diffusion engine and the experiment layer:
 node states, aggregate `[U, A, B]` snapshots, the read-only graph, per-step
 node configurations, the random-number oracle, and why a sample or an
 experiment has no result.

 A node is identified by its position in the graph's node iteration order,
 so the nodes of a graph with `N` nodes are `0 .. N-1` and a configuration is
 the sequence of their states in that order.
 */
module Types {

  /** A node: its position in the graph's node iteration order. */
  type Node = nat

  /** The three node states, coded 0, 1 and 2 by the engine. */
  datatype State = Undecided | InfluenceA | InfluenceB

  /** The only changes a state may undergo in one step: none, or Undecided to InfluenceA. */
  predicate Moves(s: State, s': State) {
    s' == s || (s == Undecided && s' == InfluenceA)
  }

  /** One aggregate snapshot `[U, A, B]` of how many nodes are in each state. */
  datatype Counts = Counts(u: int, a: int, b: int) {

    function Of(s: State): int {
      match s
      case Undecided => u
      case InfluenceA => a
      case InfluenceB => b
    }

    function Total(): int {
      u + a + b
    }

    function Plus(other: Counts): Counts {
      Counts(u + other.u, a + other.a, b + other.b)
    }
  }

  /** The snapshot of a single node in state `s`. */
  function Unit(s: State): (c: Counts)
    ensures c.Of(s) == 1 && c.Total() == 1
  {
    match s
    case Undecided => Counts(1, 0, 0)
    case InfluenceA => Counts(0, 1, 0)
    case InfluenceB => Counts(0, 0, 1)
  }

  /** An averaged snapshot: one real-valued mean per state. */
  datatype Mean = Mean(u: real, a: real, b: real) {

    function Of(s: State): real {
      match s
      case Undecided => u
      case InfluenceA => a
      case InfluenceB => b
    }

    function Total(): real {
      u + a + b
    }
  }

  /** No element of `s` occurs twice: the last one is new and so, recursively, is every earlier one. */
  predicate Distinct(s: seq<Node>)
    decreases |s|
  {
    |s| == 0 || (s[|s| - 1] !in s[..|s| - 1] && Distinct(s[..|s| - 1]))
  }

  /** `Distinct` is the familiar pairwise form: no two positions of `s` hold the same node. */
  lemma {:induction false} DistinctPairwise(s: seq<Node>)
    ensures Distinct(s) <==> forall i, j :: 0 <= i < j < |s| ==> s[i] != s[j]
    decreases |s|
  {
    if |s| > 0 {
      var rest := s[..|s| - 1];
      DistinctPairwise(rest);
      assert forall i :: 0 <= i < |rest| ==> rest[i] == s[i];
    }
  }

  /** Every element of `s` is a node of a graph with `n` nodes. */
  predicate Within(s: seq<Node>, n: nat) {
    forall i :: 0 <= i < |s| ==> s[i] < n
  }

  /** The nodes `0 .. n-1` that `s` mentions. */
  ghost function Members(s: seq<Node>, n: nat): set<Node> {
    set x: Node | x < n && x in s
  }

  /** The nodes `0 .. n-1` that `s` does not mention. */
  ghost function NonMembers(s: seq<Node>, n: nat): set<Node> {
    set x: Node | x < n && x !in s
  }

  /** A sequence of nodes without repeats mentions exactly as many nodes as it is long. */
  lemma {:induction false} DistinctCard(s: seq<Node>, n: nat)
    requires Distinct(s) && Within(s, n)
    ensures |Members(s, n)| == |s|
    decreases |s|
  {
    if |s| > 0 {
      var rest, x := s[..|s| - 1], s[|s| - 1];
      assert s == rest + [x];
      DistinctCard(rest, n);
      assert Members(s, n) == Members(rest, n) + {x};
    }
  }

  /** Each of the nodes `0 .. n-1` is either mentioned by `s` or not. */
  lemma {:induction false} MembersSplit(s: seq<Node>, n: nat)
    ensures |Members(s, n)| + |NonMembers(s, n)| == n
  {
    if n > 0 {
      MembersSplit(s, n - 1);
      if n - 1 in s {
        assert Members(s, n) == Members(s, n - 1) + {n - 1};
        assert NonMembers(s, n) == NonMembers(s, n - 1);
      } else {
        assert Members(s, n) == Members(s, n - 1);
        assert NonMembers(s, n) == NonMembers(s, n - 1) + {n - 1};
      }
    }
  }

  /** A sequence of nodes without repeats leaves out `n - |s|` of the nodes `0 .. n-1`. */
  lemma NonMembersCard(s: seq<Node>, n: nat)
    requires Distinct(s) && Within(s, n)
    ensures |NonMembers(s, n)| == n - |s|
  {
    DistinctCard(s, n);
    MembersSplit(s, n);
  }

  /** `s` leaves out none of the nodes `0 .. n-1` exactly when it mentions all of them. */
  lemma NoNonMembers(s: seq<Node>, n: nat)
    ensures |NonMembers(s, n)| == 0 <==> forall x: Node :: x < n ==> x in s
  {
    if exists x: Node :: x < n && x !in s {
      var x: Node :| x < n && x !in s;
      assert x in NonMembers(s, n);
    }
  }

  /**
   A graph as the engine sees it: for each node, in iteration order, its
   neighbours in adjacency order (which fixes the order of the random draws).
   */
  datatype RawGraph = RawGraph(adj: seq<seq<Node>>) {

    /** The number of nodes. */
    function Size(): nat {
      |adj|
    }

    /** Every neighbour is a node of the graph. */
    ghost predicate WellFormed() {
      forall n, i :: 0 <= n < |adj| && 0 <= i < |adj[n]| ==> adj[n][i] < |adj|
    }
  }

  type Graph = g: RawGraph | g.WellFormed() witness RawGraph([])

  /** The state of every node at one time step, in node order. */
  type Config = seq<State>

  /**
   The process-wide random generator as an oracle. A run keeps a position
   counter `pos`: the k-th call of the generator is `uniform(k)` when the code
   calls `random()` and `integer(k)` when it calls `randint`.
   */
  datatype Rng = Rng(uniform: nat -> real, integer: nat -> nat)

  /** Every `random()` draw lies in the unit interval [0, 1). */
  ghost predicate UnitDraws(rng: Rng) {
    forall k :: 0.0 <= rng.uniform(k) < 1.0
  }

  /** Why a sample, and so an experiment, has no result. */
  datatype Error =
    | InsufficientPopulation  // fewer candidate nodes than requested: the sampler's `None`
    | SamplerExhausted        // the draw budget ran out before the sample was complete
    | MissingGroup            // a group that is `None` was read as a list: Python's `TypeError`

  datatype Result<T> = Success(value: T) | Failure(error: Error) {

    predicate IsFailure() {
      Failure?
    }

    function PropagateFailure<U>(): (r: Result<U>)
      requires Failure?
    {
      Failure(error)
    }

    function Extract(): T
      requires Success?
    {
      value
    }
  }
}
