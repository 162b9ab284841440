/**
 * The invariant that ties potentials to back-pointers during a search from a
 * given starting node.
 */
module BackPointers {
  import opened Outcomes
  import opened Nodes

  /**
   * The back-pointer of v is u: u is a node with an edge u -> v, and v's
   * potential is at least u's plus that edge's weight. The starting node's own
   * potential is left out, since it is unset when it relaxes its edges and may
   * be set later through a cycle.
   */
  predicate BackEdge(nodes: map<Id, Node>, start: Id, v: Id, u: Id)
    requires v in nodes
  {
    && u in nodes
    && Distance(nodes[u].conns, v).Some?
    && (u != start ==> nodes[u].potential.Some?)
    && nodes[v].PotentialValue() >= (if u == start then 0 else nodes[u].PotentialValue()) + Distance(nodes[u].conns, v).value
  }

  /**
   * Potential and origin are set together; a set potential is positive; every
   * origin is a back edge.
   */
  predicate PotInv(nodes: map<Id, Node>, start: Id) {
    forall v :: v in nodes ==> PotOk(nodes, start, v)
  }

  predicate PotOk(nodes: map<Id, Node>, start: Id, v: Id)
    requires v in nodes
  {
    && (nodes[v].potential.Some? <==> nodes[v].from.Some?)
    && (nodes[v].potential.Some? ==> nodes[v].potential.value >= 1)
    && (nodes[v].from.Some? ==> BackEdge(nodes, start, v, nodes[v].from.value))
  }

  /** A table without search state satisfies the invariant for any start. */
  lemma FreshPotInv(nodes: map<Id, Node>, start: Id)
    requires forall k :: k in nodes ==> Node.Fresh(nodes[k])
    ensures PotInv(nodes, start)
  {
  }
}
