/**
 The bookkeeping behind the engine's running counters: how a snapshot
 changes when one node moves from U to A. These identities sit in a module of
 their own, apart from the engine's definitions, so that they are proved
 over the `Counts` record alone, with nothing else in view.
 */
module Snapshots {
  import opened Types

  /** Moving one node from U to A, or leaving it, trades the node's old unit count for its new one. */
  lemma MoveCounts(c: Counts, c': Counts, x: State, s: State)
    requires Moves(x, s)
    requires c' == (if s == x then c else Counts(c.u - 1, c.a + 1, c.b))
    ensures c'.Plus(Unit(x)) == c.Plus(Unit(s))
  {
    var left, right := c'.Plus(Unit(x)), c.Plus(Unit(s));
    assert left.u == right.u && left.a == right.a && left.b == right.b;
  }

  /** The counting identity behind one node of a sweep, over snapshots only. */
  lemma ExchangeCounts(counts: Counts, c: Counts, c': Counts, t: Counts, t': Counts, x: State, s: State)
    requires c.Plus(t) == counts.Plus(t')
    requires c'.Plus(Unit(x)) == c.Plus(Unit(s))
    ensures c'.Plus(t.Plus(Unit(x))) == counts.Plus(t'.Plus(Unit(s)))
  {
  }
}
