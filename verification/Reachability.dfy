/** Reachability by paths, for the worklist searches that must agree with it. */
module Reachability {

  /** A walk along `next`, from its first node to its last. */
  ghost predicate Walk<N(!new)>(next: N -> set<N>, nodes: seq<N>) {
    nodes != [] && forall i | 0 < i < |nodes| :: nodes[i] in next(nodes[i - 1])
  }

  ghost predicate Leads<N(!new)>(next: N -> set<N>, nodes: seq<N>, from: N, to: N) {
    Walk(next, nodes) && nodes[0] == from && nodes[|nodes| - 1] == to
  }

  ghost predicate Reachable<N(!new)>(next: N -> set<N>, from: N, to: N) {
    exists nodes :: Leads(next, nodes, from, to)
  }

  lemma ReachesItself<N(!new)>(next: N -> set<N>, from: N)
    ensures Reachable(next, from, from)
  {
    assert Leads(next, [from], from, from);
  }

  lemma ReachesNext<N(!new)>(next: N -> set<N>, from: N, to: N, further: N)
    requires Reachable(next, from, to) && further in next(to)
    ensures Reachable(next, from, further)
  {
    var nodes :| Leads(next, nodes, from, to);
    assert Leads(next, nodes + [further], from, further);
  }

  /** A set that holds the start and everything next to its members holds all that is reachable. */
  lemma {:induction false} ClosedHoldsAll<N(!new)>(next: N -> set<N>, closed: set<N>, nodes: seq<N>)
    requires Walk(next, nodes) && nodes[0] in closed && forall n | n in closed :: next(n) <= closed
    ensures nodes[|nodes| - 1] in closed
  {
    if |nodes| > 1 {
      var init := nodes[..|nodes| - 1];
      assert forall i | 0 <= i < |init| :: init[i] == nodes[i];
      ClosedHoldsAll(next, closed, init);
      assert nodes[|nodes| - 1] in next(nodes[|nodes| - 1 - 1]);
    }
  }

  lemma ClosedHolds<N(!new)>(next: N -> set<N>, closed: set<N>, from: N, to: N)
    requires from in closed && (forall n | n in closed :: next(n) <= closed) && Reachable(next, from, to)
    ensures to in closed
  {
    var nodes :| Leads(next, nodes, from, to);
    ClosedHoldsAll(next, closed, nodes);
  }
}
