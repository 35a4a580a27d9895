/**
 `generateRandomSample(G, sampleSize, exclude)`: rejection sampling without
 replacement. The candidate pool is the graph's nodes outside `exclude`, in
 node order; when it is smaller than the requested size there is no sample.
 Otherwise indices into the pool are drawn uniformly, one `randint` call per
 draw, and a drawn node is kept unless the sample already holds it, until the
 sample has the requested size.
 */
module Sampling {
  import opened Types

  /** A sample and the position of the next draw after it. */
  datatype Sample = Sample(nodes: seq<Node>, pos: nat)

  /** `size` distinct nodes of `g`, none of them in `exclude`: what a successful sampler call promises. */
  ghost predicate RandomSample(g: Graph, s: seq<Node>, size: nat, exclude: seq<Node>) {
    && |s| == size
    && Distinct(s)
    && forall i :: 0 <= i < |s| ==> s[i] < g.Size() && s[i] !in exclude
  }

  /** The nodes `0 .. n-1` outside `exclude`, in node order: the sampler's pool. */
  function Candidates(n: nat, exclude: seq<Node>): (pool: seq<Node>)
    ensures forall i :: 0 <= i < |pool| ==> pool[i] < n && pool[i] !in exclude
    ensures forall i, j :: 0 <= i < j < |pool| ==> pool[i] < pool[j]
  {
    if n == 0 then []
    else Candidates(n - 1, exclude) + (if n - 1 in exclude then [] else [n - 1])
  }

  /** Every node outside `exclude` is in the pool. */
  lemma {:induction false} CandidatesComplete(n: nat, exclude: seq<Node>, x: Node)
    requires x < n && x !in exclude
    ensures x in Candidates(n, exclude)
  {
    if x < n - 1 {
      CandidatesComplete(n - 1, exclude, x);
    }
  }

  /** The pool holds no node twice, since it lists the nodes in increasing order. */
  lemma CandidatesDistinct(n: nat, exclude: seq<Node>)
    ensures Distinct(Candidates(n, exclude))
  {
    DistinctPairwise(Candidates(n, exclude));
  }

  /** The pool's size is the number of nodes outside `exclude`. */
  lemma {:induction false} CandidatesCount(n: nat, exclude: seq<Node>)
    ensures |Candidates(n, exclude)| == |NonMembers(exclude, n)|
  {
    if n > 0 {
      CandidatesCount(n - 1, exclude);
      if n - 1 in exclude {
        assert NonMembers(exclude, n) == NonMembers(exclude, n - 1);
      } else {
        assert NonMembers(exclude, n) == NonMembers(exclude, n - 1) + {n - 1};
      }
    }
  }

  /** The first `m` nodes drawn from `pool`, the draws starting at position `pos`. */
  function Drawn(pool: seq<Node>, rng: Rng, pos: nat, m: nat): (d: seq<Node>)
    requires |pool| > 0 || m == 0
    ensures |d| == m
    ensures forall i :: 0 <= i < m ==> d[i] in pool
  {
    seq(m, i requires 0 <= i < m => pool[rng.integer(pos + i) % |pool|])
  }

  /**
   The sample that keeping every new node of the draws `d`, in order, makes
   of `s`: a reference definition of the sampler's acceptance rule.
   */
  function KeepNew(s: seq<Node>, d: seq<Node>): seq<Node>
    decreases |d|
  {
    if |d| == 0 then s
    else
      var prev := KeepNew(s, d[..|d| - 1]);
      if d[|d| - 1] in prev then prev else prev + [d[|d| - 1]]
  }

  /** Keeping the new nodes of `a + b` is keeping those of `a`, then those of `b`. */
  lemma {:induction false} KeepNewAppend(s: seq<Node>, a: seq<Node>, b: seq<Node>)
    ensures KeepNew(s, a + b) == KeepNew(KeepNew(s, a), b)
    decreases |b|
  {
    if |b| == 0 {
      assert a + b == a;
    } else {
      assert (a + b)[..|a + b| - 1] == a + b[..|b| - 1];
      KeepNewAppend(s, a, b[..|b| - 1]);
    }
  }

  /** The draws from position `pos` are the draw at `pos` followed by the draws from `pos + 1`. */
  lemma DrawnFront(pool: seq<Node>, rng: Rng, pos: nat, m: nat)
    requires |pool| > 0 && m > 0
    ensures Drawn(pool, rng, pos, m) == [pool[rng.integer(pos) % |pool|]] + Drawn(pool, rng, pos + 1, m - 1)
  {
  }

  /** Keeping the new nodes of the draws from `pos` is keeping the first draw, then the new nodes of the draws from `pos + 1`. */
  lemma KeepNewShift(pool: seq<Node>, rng: Rng, pos: nat, m: nat, sample: seq<Node>)
    requires |pool| > 0 && m > 0
    ensures KeepNew(sample, Drawn(pool, rng, pos, m))
         == KeepNew(KeepNew(sample, [pool[rng.integer(pos) % |pool|]]), Drawn(pool, rng, pos + 1, m - 1))
  {
    DrawnFront(pool, rng, pos, m);
    KeepNewAppend(sample, [pool[rng.integer(pos) % |pool|]], Drawn(pool, rng, pos + 1, m - 1));
  }

  /** Keeping the new node of a single draw. */
  lemma KeepNewOne(sample: seq<Node>, x: Node)
    ensures KeepNew(sample, [x]) == if x in sample then sample else sample + [x]
  {
    assert [x][..0] == [];
  }

  /** Keeping new nodes never shortens a sample. */
  lemma {:induction false} KeepNewGrows(s: seq<Node>, d: seq<Node>)
    ensures |s| <= |KeepNew(s, d)|
    decreases |d|
  {
    if |d| > 0 {
      KeepNewGrows(s, d[..|d| - 1]);
    }
  }

  /**
   The draws of a budget of `fuel` leave `sample` short of `size`: keeping
   every new node among them still gives fewer than `size` nodes.
   */
  predicate Exhausted(pool: seq<Node>, size: nat, sample: seq<Node>, rng: Rng, pos: nat, fuel: nat) {
    |pool| > 0 && |KeepNew(sample, Drawn(pool, rng, pos, fuel))| < size
  }

  /**
   The loop of the sampler: while `sample` is short of `size`, draw a pool
   index and keep the drawn node if it is new. Every iteration takes one draw
   and one unit of `fuel`; the loop fails once the fuel is spent, and that
   happens exactly when the draws of the whole budget leave the sample short.
   */
  function DrawDistinct(pool: seq<Node>, size: nat, sample: seq<Node>, rng: Rng, pos: nat, fuel: nat): (r: Result<Sample>)
    requires |pool| > 0 || |sample| >= size
    ensures r.Failure? ==> r.error == SamplerExhausted
    ensures r.Success? ==> pos <= r.value.pos <= pos + fuel
    ensures r.Success? && |sample| <= size ==> |r.value.nodes| == size
    decreases fuel
  {
    if |sample| >= size then Success(Sample(sample, pos))
    else if fuel == 0 then Failure(SamplerExhausted)
    else
      var x := pool[rng.integer(pos) % |pool|];
      DrawDistinct(pool, size, if x in sample then sample else sample + [x], rng, pos + 1, fuel - 1)
  }

  /** The loop fails exactly when the draws of the whole budget leave the sample short. */
  lemma {:induction false} DrawDistinctExhausted(pool: seq<Node>, size: nat, sample: seq<Node>, rng: Rng, pos: nat, fuel: nat)
    requires |pool| > 0 || |sample| >= size
    ensures DrawDistinct(pool, size, sample, rng, pos, fuel).Failure? <==> Exhausted(pool, size, sample, rng, pos, fuel)
    decreases fuel
  {
    if |sample| >= size {
      if |pool| > 0 {
        KeepNewGrows(sample, Drawn(pool, rng, pos, fuel));
      }
    } else if fuel == 0 {
      assert Drawn(pool, rng, pos, 0) == [];
    } else {
      var x := pool[rng.integer(pos) % |pool|];
      var sample' := if x in sample then sample else sample + [x];
      DrawDistinctExhausted(pool, size, sample', rng, pos + 1, fuel - 1);
      KeepNewStep(pool, rng, pos, sample, fuel, KeepNew(sample', Drawn(pool, rng, pos + 1, fuel - 1)));
    }
  }

  /** The draws of a budget are those of its first `m` units followed by those of the rest. */
  lemma DrawnSplit(pool: seq<Node>, rng: Rng, pos: nat, m: nat, fuel: nat)
    requires |pool| > 0 && m <= fuel
    ensures Drawn(pool, rng, pos, fuel) == Drawn(pool, rng, pos, m) + Drawn(pool, rng, pos + m, fuel - m)
  {
    var d, a, b := Drawn(pool, rng, pos, fuel), Drawn(pool, rng, pos, m), Drawn(pool, rng, pos + m, fuel - m);
    forall i | 0 <= i < fuel
      ensures d[i] == (a + b)[i]
    {
      if i >= m {
        assert b[i - m] == pool[rng.integer(pos + m + (i - m)) % |pool|];
      }
    }
  }

  /** A budget whose draws leave the sample short leaves it short after any smaller number of them. */
  lemma ExhaustedPrefix(pool: seq<Node>, size: nat, sample: seq<Node>, rng: Rng, pos: nat, m: nat, fuel: nat)
    requires m <= fuel
    requires Exhausted(pool, size, sample, rng, pos, fuel)
    ensures Exhausted(pool, size, sample, rng, pos, m)
  {
    DrawnSplit(pool, rng, pos, m, fuel);
    KeepNewAppend(sample, Drawn(pool, rng, pos, m), Drawn(pool, rng, pos + m, fuel - m));
    KeepNewGrows(KeepNew(sample, Drawn(pool, rng, pos, m)), Drawn(pool, rng, pos + m, fuel - m));
  }

  /** A loop that still lacks nodes and completes takes one draw, keeps it if new, and goes on from the next position. */
  lemma DrawDistinctUnfold(pool: seq<Node>, size: nat, sample: seq<Node>, rng: Rng, pos: nat, fuel: nat) returns (sample': seq<Node>)
    requires |pool| > 0 && |sample| < size
    requires DrawDistinct(pool, size, sample, rng, pos, fuel).Success?
    ensures var x := pool[rng.integer(pos) % |pool|];
      sample' == if x in sample then sample else sample + [x]
    ensures fuel > 0 && DrawDistinct(pool, size, sample, rng, pos, fuel) == DrawDistinct(pool, size, sample', rng, pos + 1, fuel - 1)
  {
    var x := pool[rng.integer(pos) % |pool|];
    sample' := if x in sample then sample else sample + [x];
  }

  /** One iteration of the sampler's loop, as keeping the new node of the first of the draws. */
  lemma KeepNewStep(pool: seq<Node>, rng: Rng, pos: nat, sample: seq<Node>, m: nat, nodes: seq<Node>)
    requires |pool| > 0 && m > 0
    requires var x := pool[rng.integer(pos) % |pool|];
      nodes == KeepNew(if x in sample then sample else sample + [x], Drawn(pool, rng, pos + 1, m - 1))
    ensures nodes == KeepNew(sample, Drawn(pool, rng, pos, m))
  {
    KeepNewOne(sample, pool[rng.integer(pos) % |pool|]);
    KeepNewShift(pool, rng, pos, m, sample);
  }

  /**
   A sample that completes is the result of keeping the new nodes among the
   draws it consumed.
   */
  lemma {:induction false} DrawDistinctKeepsNew(pool: seq<Node>, size: nat, sample: seq<Node>, rng: Rng, pos: nat, fuel: nat)
    requires |pool| > 0 || |sample| >= size
    requires DrawDistinct(pool, size, sample, rng, pos, fuel).Success?
    ensures var r := DrawDistinct(pool, size, sample, rng, pos, fuel).value;
      && (|pool| > 0 || r.pos == pos)
      && r.nodes == KeepNew(sample, Drawn(pool, rng, pos, r.pos - pos))
    decreases fuel
  {
    var r := DrawDistinct(pool, size, sample, rng, pos, fuel).value;
    if |sample| >= size {
      assert r.pos == pos;
    } else {
      var sample' := DrawDistinctUnfold(pool, size, sample, rng, pos, fuel);
      DrawDistinctKeepsNew(pool, size, sample', rng, pos + 1, fuel - 1);
      KeepNewStep(pool, rng, pos, sample, r.pos - pos, r.nodes);
    }
  }

  /** A sample that completes stops at the first draw that completes it: every shorter run of draws leaves it short. */
  lemma {:induction false} DrawDistinctStopsFirst(pool: seq<Node>, size: nat, sample: seq<Node>, rng: Rng, pos: nat, fuel: nat)
    requires |pool| > 0 || |sample| >= size
    requires DrawDistinct(pool, size, sample, rng, pos, fuel).Success?
    ensures var r := DrawDistinct(pool, size, sample, rng, pos, fuel).value;
      forall m :: 0 <= m < r.pos - pos ==> |KeepNew(sample, Drawn(pool, rng, pos, m))| < size
    decreases fuel
  {
    var r := DrawDistinct(pool, size, sample, rng, pos, fuel).value;
    if |sample| < size {
      var x := pool[rng.integer(pos) % |pool|];
      var sample' := if x in sample then sample else sample + [x];
      KeepNewOne(sample, x);
      DrawDistinctStopsFirst(pool, size, sample', rng, pos + 1, fuel - 1);
      forall m | 0 <= m < r.pos - pos
        ensures |KeepNew(sample, Drawn(pool, rng, pos, m))| < size
      {
        if m > 0 {
          KeepNewShift(pool, rng, pos, m, sample);
        } else {
          assert Drawn(pool, rng, pos, 0) == [];
        }
      }
    }
  }

  /** Keeping only new nodes keeps a sample free of repeats, extends it, and adds only drawn nodes. */
  lemma {:induction false} KeepNewDistinct(s: seq<Node>, d: seq<Node>)
    requires Distinct(s)
    ensures Distinct(KeepNew(s, d))
    ensures |s| <= |KeepNew(s, d)| && KeepNew(s, d)[..|s|] == s
    ensures forall i :: |s| <= i < |KeepNew(s, d)| ==> KeepNew(s, d)[i] in d
    decreases |d|
  {
    if |d| > 0 {
      var front := d[..|d| - 1];
      var prev := KeepNew(s, front);
      KeepNewDistinct(s, front);
      if d[|d| - 1] !in prev {
        var next := prev + [d[|d| - 1]];
        assert next[..|prev|] == prev;
        assert next[..|s|] == prev[..|s|];
      }
      forall i | |s| <= i < |KeepNew(s, d)|
        ensures KeepNew(s, d)[i] in d
      {
        if i < |prev| {
          assert prev[i] in front;
        }
      }
    }
  }

  /** Keeping the new nodes among draws from a pool of admissible nodes gives an admissible sample. */
  lemma SampleFromPool(g: Graph, exclude: seq<Node>, pool: seq<Node>, size: nat, nodes: seq<Node>, d: seq<Node>)
    requires forall i :: 0 <= i < |pool| ==> pool[i] < g.Size() && pool[i] !in exclude
    requires forall i :: 0 <= i < |d| ==> d[i] in pool
    requires nodes == KeepNew([], d) && |nodes| == size
    ensures RandomSample(g, nodes, size, exclude)
  {
    KeepNewDistinct([], d);
  }

  /** More fuel does not change a sample that completes. */
  lemma {:induction false} DrawDistinctFuel(pool: seq<Node>, size: nat, sample: seq<Node>, rng: Rng, pos: nat, fuel: nat, fuel': nat)
    requires |pool| > 0 || |sample| >= size
    requires fuel <= fuel'
    requires DrawDistinct(pool, size, sample, rng, pos, fuel).Success?
    ensures DrawDistinct(pool, size, sample, rng, pos, fuel') == DrawDistinct(pool, size, sample, rng, pos, fuel)
    decreases fuel
  {
    if |sample| < size {
      var x := pool[rng.integer(pos) % |pool|];
      DrawDistinctFuel(pool, size, if x in sample then sample else sample + [x], rng, pos + 1, fuel - 1, fuel' - 1);
    }
  }

  /**
   `generateRandomSample(G, sampleSize, exclude)` with at most `fuel` draws,
   reading them from `rng` starting at position `pos`.
   */
  function GenerateRandomSample(g: Graph, sampleSize: nat, exclude: seq<Node>, rng: Rng, pos: nat, fuel: nat): (r: Result<Sample>)
    ensures r == Failure(InsufficientPopulation) <==> |NonMembers(exclude, g.Size())| < sampleSize
    ensures r.Failure? ==> r.error == InsufficientPopulation || r.error == SamplerExhausted
    ensures r.Success? ==> RandomSample(g, r.value.nodes, sampleSize, exclude)
    ensures r.Success? ==> forall i, j :: 0 <= i < j < |r.value.nodes| ==> r.value.nodes[i] != r.value.nodes[j]
    ensures r.Success? ==> pos <= r.value.pos
  {
    var pool := Candidates(g.Size(), exclude);
    CandidatesCount(g.Size(), exclude);
    if |pool| < sampleSize then Failure(InsufficientPopulation)
    else
      var r := DrawDistinct(pool, sampleSize, [], rng, pos, fuel);
      if r.Success? then
        DrawDistinctKeepsNew(pool, sampleSize, [], rng, pos, fuel);
        SampleFromPool(g, exclude, pool, sampleSize, r.value.nodes, Drawn(pool, rng, pos, r.value.pos - pos));
        DistinctPairwise(r.value.nodes);
        r
      else r
  }

  /**
   The sampler runs out of budget exactly when the pool is large enough and
   the draws of the whole budget still leave the sample short.
   */
  lemma SampleExhausted(g: Graph, sampleSize: nat, exclude: seq<Node>, rng: Rng, pos: nat, fuel: nat)
    ensures GenerateRandomSample(g, sampleSize, exclude, rng, pos, fuel) == Failure(SamplerExhausted)
        <==> sampleSize <= |NonMembers(exclude, g.Size())| && Exhausted(Candidates(g.Size(), exclude), sampleSize, [], rng, pos, fuel)
  {
    var pool := Candidates(g.Size(), exclude);
    CandidatesCount(g.Size(), exclude);
    if sampleSize <= |pool| {
      DrawDistinctExhausted(pool, sampleSize, [], rng, pos, fuel);
    }
  }

  /** Once some `m` draws within the budget hold `sampleSize` distinct pool nodes, the sampler returns a sample. */
  lemma SampleCompletes(g: Graph, sampleSize: nat, exclude: seq<Node>, rng: Rng, pos: nat, fuel: nat, m: nat)
    requires m <= fuel
    requires sampleSize <= |NonMembers(exclude, g.Size())|
    requires !Exhausted(Candidates(g.Size(), exclude), sampleSize, [], rng, pos, m)
    ensures GenerateRandomSample(g, sampleSize, exclude, rng, pos, fuel).Success?
  {
    SampleExhausted(g, sampleSize, exclude, rng, pos, fuel);
    if Exhausted(Candidates(g.Size(), exclude), sampleSize, [], rng, pos, fuel) {
      ExhaustedPrefix(Candidates(g.Size(), exclude), sampleSize, [], rng, pos, m, fuel);
    }
  }

  /**
   A sample is the first `sampleSize` distinct nodes among the pool draws from
   `pos` on: it keeps every new drawn node, and it stops at the draw that
   completes it.
   */
  lemma SampleIsFirstDistinctDraws(g: Graph, sampleSize: nat, exclude: seq<Node>, rng: Rng, pos: nat, fuel: nat)
    requires GenerateRandomSample(g, sampleSize, exclude, rng, pos, fuel).Success?
    ensures var r := GenerateRandomSample(g, sampleSize, exclude, rng, pos, fuel).value;
      var pool := Candidates(g.Size(), exclude);
      var m := r.pos - pos;
      && (|pool| > 0 || m == 0)
      && r.nodes == KeepNew([], Drawn(pool, rng, pos, m))
      && forall m' :: 0 <= m' < m ==> |KeepNew([], Drawn(pool, rng, pos, m'))| < sampleSize
  {
    var pool := Candidates(g.Size(), exclude);
    DrawDistinctKeepsNew(pool, sampleSize, [], rng, pos, fuel);
    DrawDistinctStopsFirst(pool, sampleSize, [], rng, pos, fuel);
  }

  /** A sample that completes with some fuel is the same sample with any larger fuel. */
  lemma SampleFuel(g: Graph, sampleSize: nat, exclude: seq<Node>, rng: Rng, pos: nat, fuel: nat, fuel': nat)
    requires fuel <= fuel'
    requires GenerateRandomSample(g, sampleSize, exclude, rng, pos, fuel).Success?
    ensures GenerateRandomSample(g, sampleSize, exclude, rng, pos, fuel') == GenerateRandomSample(g, sampleSize, exclude, rng, pos, fuel)
  {
    var pool := Candidates(g.Size(), exclude);
    DrawDistinctFuel(pool, sampleSize, [], rng, pos, fuel, fuel');
  }
}
