/** The node table: node ids mapped to nodes, with unique ids. */
module Graphs {
  import opened Outcomes
  import opened Nodes

  /** Every node sits under its own id and has at most one edge per target. */
  predicate WellFormed(nodes: map<Id, Node>) {
    forall k :: k in nodes ==> nodes[k].id == k && DistinctTargets(nodes[k].conns)
  }

  /** Every edge leads to a node of the table. */
  predicate Closed(nodes: map<Id, Node>) {
    forall k, i :: k in nodes && 0 <= i < |nodes[k].conns| ==> nodes[k].conns[i].to in nodes
  }

  class Graph {
    /** Graph::getNodes is a read of this field. */
    var nodes: map<Id, Node>

    constructor ()
      ensures nodes == map[]
    {
      nodes := map[];
    }

    /** Graph::add: refuses an id that is already present, otherwise inserts the node. */
    method Add(node: Node) returns (r: Outcome)
      modifies this
      ensures node.id in old(nodes) ==> r == Fail(DuplicateId(node.id)) && nodes == old(nodes)
      ensures node.id !in old(nodes) ==> r == Pass && nodes == old(nodes)[node.id := node]
    {
      if node.id in nodes {
        return Fail(DuplicateId(node.id));
      }
      nodes := nodes[node.id := node];
      r := Pass;
    }

    /** Graph::getNode: fails exactly when the id is absent. */
    method GetNode(id: Id) returns (r: Result<Node>)
      ensures r.Ok? <==> id in nodes
      ensures r.Ok? ==> r.value == nodes[id]
      ensures r.Err? ==> r.error == NodeNotFound(id)
    {
      if id !in nodes {
        return Err(NodeNotFound(id));
      }
      r := Ok(nodes[id]);
    }
  }
}
