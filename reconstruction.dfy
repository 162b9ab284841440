/** Dijkstra::getShortestPath as a function: follow back-pointers from the end to the start. */
module Reconstruction {
  import opened Outcomes
  import opened Nodes
  import opened BackPointers

  /**
   * The path from start to v along back-pointers. It fails when a node other
   * than the start has no origin (the source dereferences null there). The
   * invariant makes potentials fall strictly along the chain, so it ends.
   */
  function Walk(nodes: map<Id, Node>, start: Id, v: Id): (r: Result<seq<Id>>)
    requires v in nodes && PotInv(nodes, start)
    ensures r.Ok? ==> |r.value| >= 1 && r.value[0] == start && r.value[|r.value| - 1] == v
    ensures r.Err? ==> r.error == Unreachable
    decreases if v == start then 0 else nodes[v].PotentialValue()
  {
    if v == start then Ok([start])
    else
      match nodes[v].from
      case None => Err(Unreachable)
      case Some(u) =>
        match Walk(nodes, start, u)
        case Err(e) => Err(e)
        case Ok(p) => Ok(p + [v])
  }

  /** array_reverse. */
  function Reverse(s: seq<Id>): (r: seq<Id>)
    ensures |r| == |s|
    ensures forall i :: 0 <= i < |s| ==> r[i] == s[|s| - 1 - i]
  {
    if s == [] then [] else [s[|s| - 1]] + Reverse(s[..|s| - 1])
  }

  lemma ReverseSnoc(s: seq<Id>, x: Id)
    ensures Reverse(s + [x]) == [x] + Reverse(s)
  {
    assert (s + [x])[..|s|] == s;
  }

  /** Sum of the weights of the edges between consecutive nodes of p. */
  function PathWeight(nodes: map<Id, Node>, p: seq<Id>): int {
    if |p| < 2 then 0
    else
      var a, b := p[|p| - 2], p[|p| - 1];
      var w := if a in nodes && Distance(nodes[a].conns, b).Some? then Distance(nodes[a].conns, b).value else 0;
      PathWeight(nodes, p[..|p| - 1]) + w
  }

  /**
   * A reconstructed path begins with the start and ends with v; every later
   * element is not the start, has its predecessor as origin and is reached
   * from it by an edge.
   */
  lemma {:induction false} WalkShape(nodes: map<Id, Node>, start: Id, v: Id)
    requires v in nodes && PotInv(nodes, start)
    ensures Walk(nodes, start, v).Ok? ==>
      var p := Walk(nodes, start, v).value;
      && |p| >= 1 && p[0] == start && p[|p| - 1] == v
      && (forall i :: 0 <= i < |p| ==> p[i] in nodes)
      && (forall i :: 1 <= i < |p| ==>
            p[i] != start && nodes[p[i]].from == Some(p[i - 1]) && Distance(nodes[p[i - 1]].conns, p[i]).Some?)
    ensures Walk(nodes, start, v).Err? ==> Walk(nodes, start, v).error == Unreachable
    decreases if v == start then 0 else nodes[v].PotentialValue()
  {
    if v != start && nodes[v].from.Some? {
      var u := nodes[v].from.value;
      WalkShape(nodes, start, u);
    }
  }

  /**
   * The end node's potential bounds the weight of the reconstructed path from
   * above; it need not equal it, since passed nodes are never expanded again.
   */
  lemma {:induction false} WalkWeight(nodes: map<Id, Node>, start: Id, v: Id)
    requires v in nodes && PotInv(nodes, start)
    ensures Walk(nodes, start, v).Ok? ==> PathWeight(nodes, Walk(nodes, start, v).value) <= nodes[v].PotentialValue()
    ensures v != start && Walk(nodes, start, v).Ok? ==> nodes[v].potential.Some?
    decreases if v == start then 0 else nodes[v].PotentialValue()
  {
    if v == start {
      assert nodes[v].PotentialValue() >= 0;
    } else if nodes[v].from.Some? {
      var u := nodes[v].from.value;
      WalkWeight(nodes, start, u);
      if Walk(nodes, start, u).Ok? {
        var p := Walk(nodes, start, u).value;
        WalkShape(nodes, start, u);
        var q := p + [v];
        assert q[..|q| - 1] == p;
        assert q[|q| - 2] == u;
      }
    }
  }

  /**
   * The walk succeeds exactly when the end is the start or has received a
   * potential: Unreachable means the end was never relaxed.
   */
  lemma {:induction false} WalkReaches(nodes: map<Id, Node>, start: Id, v: Id)
    requires v in nodes && PotInv(nodes, start)
    ensures Walk(nodes, start, v).Ok? <==> v == start || nodes[v].potential.Some?
    decreases if v == start then 0 else nodes[v].PotentialValue()
  {
    if v != start {
      assert PotOk(nodes, start, v);
      if nodes[v].potential.Some? {
        var u := nodes[v].from.value;
        assert BackEdge(nodes, start, v, u);
        WalkReaches(nodes, start, u);
      }
    }
  }
}
