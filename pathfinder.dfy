/** The Dijkstra class: endpoints, propagation, reconstruction and the reported distance. */
module PathFinder {
  import opened Outcomes
  import opened Nodes
  import opened Graphs
  import opened Flip
  import opened Propagation
  import opened BackPointers
  import opened Reconstruction
  import Invariants

  /** The rest of a walk still to be attached: `tail` holds the later nodes, last first. */
  function Attach(w: Result<seq<Id>>, tail: seq<Id>): Result<seq<Id>> {
    match w
    case Err(e) => Err(e)
    case Ok(p) => Ok(p + Reverse(tail))
  }

  lemma AttachNothing(w: Result<seq<Id>>)
    ensures Attach(w, []) == w
  {
    if w.Ok? {
      assert w.value + [] == w.value;
    }
  }

  /** One step back along the back-pointer chain. */
  lemma AttachStep(nodes: map<Id, Node>, start: Id, v: Id, u: Id, tail: seq<Id>)
    requires v in nodes && PotInv(nodes, start) && v != start && nodes[v].from == Some(u)
    ensures u in nodes
    ensures Attach(Walk(nodes, start, v), tail) == Attach(Walk(nodes, start, u), tail + [v])
  {
    assert PotOk(nodes, start, v);
    ReverseSnoc(tail, v);
    if Walk(nodes, start, u).Ok? {
      var p := Walk(nodes, start, u).value;
      assert p + [v] + Reverse(tail) == p + ([v] + Reverse(tail));
    }
  }

  /** RelaxEdges spelled out for a non-empty edge list. */
  lemma RelaxEdgesStep(s: Search, n: Id, es: seq<Edge>)
    requires n in s.nodes && es != []
    ensures var e := RelaxEdge(s, n, es[0]);
      && (e.Err? ==> RelaxEdges(s, n, es) == Err(e.error))
      && (e.Ok? ==> RelaxEdges(s, n, es) == RelaxEdges(e.value, n, es[1..]))
  {
  }

  /** RelaxEdge spelled out for an edge whose target exists. */
  lemma RelaxEdgeValue(s: Search, n: Id, e: Edge)
    requires n in s.nodes && e.to in s.nodes
    ensures RelaxEdge(s, n, e).Ok?
    ensures RelaxEdge(s, n, e).value.nodes ==
      s.nodes[e.to := s.nodes[e.to].SetPotential(s.nodes[n].PotentialValue() + e.weight, n).0]
    ensures RelaxEdge(s, n, e).value.paths == s.paths + Extensions(s.paths, n, e.to)
    ensures RelaxEdge(s, n, e).value.order == s.order
  {
    var relaxed := s.nodes[e.to].SetPotential(s.nodes[n].PotentialValue() + e.weight, n);
    assert RelaxEdge(s, n, e) == Ok(s.(nodes := s.nodes[e.to := relaxed.0], paths := s.paths + Extensions(s.paths, n, e.to)));
  }

  /** Visit spelled out for a non-empty edge list. */
  lemma VisitStep(s: Search, es: seq<Edge>)
    requires es != []
    ensures es[0].to !in s.nodes ==> Visit(s, es) == Err(NodeNotFound(es[0].to))
    ensures es[0].to in s.nodes && s.nodes[es[0].to].passed ==> Visit(s, es) == Visit(s, es[1..])
    ensures es[0].to in s.nodes && !s.nodes[es[0].to].passed ==>
      var e := Expand(s, es[0].to);
      && (e.Err? ==> Visit(s, es) == Err(e.error))
      && (e.Ok? ==> Visit(s, es) == Visit(e.value, es[1..]))
  {
  }

  /** Expand spelled out: the relaxation loop, the marking, then the recursion loop. */
  lemma ExpandUnfold(s: Search, n: Id)
    requires n in s.nodes
    ensures var e := RelaxEdges(s, n, s.nodes[n].conns);
      && (e.Err? ==> Expand(s, n) == Err(e.error))
      && (e.Ok? ==> Expand(s, n) == Visit(Marked(e.value, n), Flipped(s.nodes[n].conns)))
  {
  }

  class Dijkstra {
    const graph: Graph
    var start: Option<Id>
    var end: Option<Id>
    /** Partial paths recorded during propagation; never read back. */
    var paths: seq<seq<Id>>
    /** The last path found; empty (falsy, like PHP's initial `false`) until a solve succeeds. */
    var solution: seq<Id>
    /** The nodes in the order they were expanded. */
    ghost var order: seq<Id>

    ghost function State(): Search
      reads this, graph
    {
      Search(graph.nodes, paths, order)
    }

    ghost predicate Valid()
      reads this, graph
    {
      && WellFormed(graph.nodes)
      && (start.Some? ==> start.value in graph.nodes && PotInv(graph.nodes, start.value))
      && (end.Some? ==> end.value in graph.nodes)
      && (|solution| > 0 ==> start.Some? && end.Some?)
    }

    constructor (g: Graph)
      ensures graph == g && start == None && end == None
      ensures paths == [] && solution == [] && order == []
      ensures WellFormed(g.nodes) ==> Valid()
    {
      graph := g;
      start, end := None, None;
      paths, solution := [], [];
      order := [];
    }

    /** Dijkstra::setStartingNode: also seeds the recorded paths with [start]. */
    method SetStartingNode(id: Id)
      requires Valid() && id in graph.nodes && PotInv(graph.nodes, id)
      modifies this`start, this`paths
      ensures Valid() && start == Some(id) && paths == old(paths) + [[id]]
    {
      paths := paths + [[id]];
      start := Some(id);
    }

    /** Dijkstra::setEndingNode. */
    method SetEndingNode(id: Id)
      requires Valid() && id in graph.nodes
      modifies this`end
      ensures Valid() && end == Some(id)
    {
      end := Some(id);
    }

    /** Dijkstra::getDistance: fails before a successful solve, then reports the end node's potential. */
    method GetDistance() returns (r: Result<Option<int>>)
      requires Valid()
      ensures r.Ok? <==> |solution| > 0
      ensures r.Err? ==> r.error == NotSolved
      ensures r.Ok? ==> end.Some? && r.value == graph.nodes[end.value].potential
    {
      if |solution| == 0 {
        return Err(NotSolved);
      }
      r := Ok(graph.nodes[end.value].potential);
    }

    /** The inner loop of calculatePotentials: extend every recorded path that ends in n by v. */
    method ExtendPaths(n: Id, v: Id)
      modifies this`paths
      ensures paths == old(paths) + Extensions(old(paths), n, v)
    {
      var snapshot := paths;
      var i := 0;
      while i < |snapshot|
        invariant 0 <= i <= |snapshot|
        invariant paths == snapshot + Extensions(snapshot[..i], n, v)
      {
        var p := snapshot[i];
        if |p| > 0 && p[|p| - 1] == n {
          paths := paths + [p + [v]];
        }
        assert snapshot[..i + 1][..i] == snapshot[..i];
        i := i + 1;
      }
      assert snapshot[..i] == snapshot;
    }

    /** One pass of the first loop of calculatePotentials: relax the edge e of n. */
    method RelaxEdgeOf(n: Id, e: Edge) returns (r: Outcome)
      requires n in graph.nodes
      modifies this`paths, graph`nodes
      ensures var x := RelaxEdge(old(State()), n, e);
        && (r.Pass? <==> x.Ok?)
        && (x.Ok? ==> State() == x.value)
        && (x.Err? ==> r == Fail(x.error))
    {
      var got := graph.GetNode(e.to);
      if got.Err? {
        return Fail(got.error);
      }
      RelaxEdgeValue(old(State()), n, e);
      var relaxed := got.value.SetPotential(graph.nodes[n].PotentialValue() + e.weight, n);
      graph.nodes := graph.nodes[e.to := relaxed.0];
      ExtendPaths(n, e.to);
      r := Pass;
    }

    /** The first loop of calculatePotentials: relax every edge of n in insertion order. */
    method RelaxNeighbours(n: Id, conns: seq<Edge>) returns (r: Outcome)
      requires n in graph.nodes
      modifies this`paths, graph`nodes
      ensures var e := RelaxEdges(old(State()), n, conns);
        && (r.Pass? <==> e.Ok?)
        && (e.Ok? ==> State() == e.value)
        && (e.Err? ==> r == Fail(e.error))
    {
      ghost var s0 := State();
      var i := 0;
      while i < |conns|
        invariant 0 <= i <= |conns|
        invariant n in graph.nodes
        invariant RelaxEdges(State(), n, conns[i..]) == RelaxEdges(s0, n, conns)
      {
        RelaxEdgesStep(State(), n, conns[i..]);
        assert conns[i..][0] == conns[i] && conns[i..][1..] == conns[i + 1..];
        var relaxed := RelaxEdgeOf(n, conns[i]);
        if relaxed.Fail? {
          return relaxed;
        }
        i := i + 1;
      }
      r := Pass;
    }

    /**
     * Dijkstra::calculatePotentials: the new search state is the one Expand
     * computes; a dangling edge ends it with NodeNotFound.
     */
    method CalculatePotentials(n: Id) returns (r: Outcome)
      requires n in graph.nodes
      modifies this`paths, this`order, graph`nodes
      ensures var e := Expand(old(State()), n);
        && (r.Pass? <==> e.Ok?)
        && (e.Ok? ==> State() == e.value)
        && (e.Err? ==> r == Fail(e.error))
      decreases |Unpassed(graph.nodes) - {n}|, 1
    {
      var conns := graph.nodes[n].conns;
      ghost var s0 := State();
      ExpandUnfold(s0, n);
      var relaxed := RelaxNeighbours(n, conns);
      if relaxed.Fail? {
        return relaxed;
      }
      ghost var s1 := State();
      assert SameShape(s0.nodes, s1.nodes);
      graph.nodes := graph.nodes[n := graph.nodes[n].MarkPassed()];
      order := order + [n];
      assert State() == Marked(s1, n);
      MarkedUnpassed(s0.nodes, s1, n);
      r := ExpandNeighbours(Flipped(conns));
    }

    /** The second loop of calculatePotentials: recurse into each unpassed neighbour in turn. */
    method ExpandNeighbours(sorted: seq<Edge>) returns (r: Outcome)
      modifies this`paths, this`order, graph`nodes
      ensures var e := Visit(old(State()), sorted);
        && (r.Pass? <==> e.Ok?)
        && (e.Ok? ==> State() == e.value)
        && (e.Err? ==> r == Fail(e.error))
      decreases |Unpassed(graph.nodes)|, 0
    {
      ghost var s2 := State();
      var j := 0;
      while j < |sorted|
        invariant 0 <= j <= |sorted|
        invariant Unpassed(graph.nodes) <= Unpassed(s2.nodes)
        invariant Visit(State(), sorted[j..]) == Visit(s2, sorted)
      {
        VisitStep(State(), sorted[j..]);
        var got := graph.GetNode(sorted[j].to);
        if got.Err? {
          return Fail(got.error);
        }
        if !got.value.passed {
          SubsetCard(Unpassed(graph.nodes), Unpassed(s2.nodes));
          var rec := CalculatePotentials(sorted[j].to);
          if rec.Fail? {
            return rec;
          }
        }
        assert sorted[j..][1..] == sorted[j + 1..];
        j := j + 1;
      }
      r := Pass;
    }

    /**
     * Dijkstra::getShortestPath: walks back-pointers from the end node to the
     * start node and reverses the walk.
     */
    method GetShortestPath() returns (r: Result<seq<Id>>)
      requires Valid() && start.Some? && end.Some?
      ensures r == Walk(graph.nodes, start.value, end.value)
    {
      var s := start.value;
      var path: seq<Id> := [];
      var node := end.value;
      AttachNothing(Walk(graph.nodes, s, node));
      while node != s
        invariant node in graph.nodes
        invariant Walk(graph.nodes, s, end.value) == Attach(Walk(graph.nodes, s, node), path)
        decreases if node == s then 0 else graph.nodes[node].PotentialValue()
      {
        match graph.nodes[node].from {
          case None =>
            return Err(Unreachable);
          case Some(u) =>
            AttachStep(graph.nodes, s, node, u, path);
            path := path + [node];
            node := u;
        }
      }
      ReverseSnoc(path, s);
      path := path + [s];
      r := Ok(Reverse(path));
    }

    /**
     * Dijkstra::solve: needs both endpoints; propagates from the start and
     * reconstructs the path to the end, remembering it as the solution.
     */
    method Solve() returns (r: Result<seq<Id>>)
      requires Valid()
      modifies this`paths, this`order, this`solution, graph`nodes
      ensures old(start).None? || old(end).None? ==>
        r == Err(MissingEndpoint) && State() == old(State()) && solution == old(solution)
      ensures old(start).Some? && old(end).Some? ==>
        var e := Expand(old(State()), start.value);
        && (e.Err? ==> r == Err(e.error))
        && (e.Ok? ==> State() == e.value && Valid() && r == Walk(graph.nodes, start.value, end.value))
      ensures r.Ok? ==> solution == r.value
      ensures r.Err? ==> solution == old(solution)
    {
      if start.None? || end.None? {
        return Err(MissingEndpoint);
      }
      ghost var s0 := State();
      var propagated := CalculatePotentials(start.value);
      if propagated.Fail? {
        return Err(propagated.error);
      }
      Invariants.ExpandKeepsPotInv(s0, start.value, start.value);
      Invariants.GrowsWellFormed(s0.nodes, graph.nodes);
      assert Valid();
      ghost var s1 := State();
      r := GetShortestPath();
      if r.Ok? {
        solution := r.value;
      }
      assert State() == s1;
      assert Valid() by {
        assert WellFormed(s1.nodes) && PotInv(s1.nodes, start.value);
      }
    }
  }
}
