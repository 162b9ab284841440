/** printShortestPath without its output: build the graph, solve, report path and total. */
module Query {
  import opened Outcomes
  import opened Nodes
  import opened Graphs
  import opened Routes
  import opened Propagation
  import opened BackPointers
  import opened Reconstruction
  import opened PathFinder
  import Expansion
  import Invariants

  /** What printShortestPath prints: the route and its total. */
  datatype Answer = Answer(route: seq<Id>, total: Option<int>)

  /** Sum of the prices, each the last route's, between consecutive ids of p. */
  function RouteWeight(routes: seq<Route>, p: seq<Id>): int {
    if |p| < 2 then 0
    else
      var w := LastPrice(routes, p[|p| - 2], p[|p| - 1]);
      RouteWeight(routes, p[..|p| - 1]) + (if w.Some? then w.value else 0)
  }

  lemma {:induction false} PathWeightIsRouteWeight(nodes: map<Id, Node>, routes: seq<Route>, p: seq<Id>)
    requires forall i :: 0 <= i < |p| ==> p[i] in nodes
    requires forall a, b :: a in nodes ==> Distance(nodes[a].conns, b) == LastPrice(routes, a, b)
    ensures PathWeight(nodes, p) == RouteWeight(routes, p)
  {
    if |p| >= 2 {
      PathWeightIsRouteWeight(nodes, routes, p[..|p| - 1]);
    }
  }

  /** A table grown from the built one keeps its prices: the last route's. */
  lemma GrownPrices(routes: seq<Route>, nodes: map<Id, Node>)
    requires Grows(Built(routes), nodes)
    ensures forall a, b :: a in nodes ==> Distance(nodes[a].conns, b) == LastPrice(routes, a, b)
  {
    BuiltWeights(routes);
  }

  /** What a successful solve over the built table promises about the path it returns. */
  lemma SolvedPath(routes: seq<Route>, nodes: map<Id, Node>, start: Id, end: Id)
    requires Grows(Built(routes), nodes) && end in nodes && PotInv(nodes, start)
    requires Walk(nodes, start, end).Ok?
    ensures Answers(routes, start, end, Answer(Walk(nodes, start, end).value, nodes[end].potential))
  {
    var p := Walk(nodes, start, end).value;
    var total := nodes[end].potential;
    GrownPrices(routes, nodes);
    WalkShape(nodes, start, end);
    assert RouteWeight(routes, p) <= nodes[end].PotentialValue() by {
      WalkWeight(nodes, start, end);
      PathWeightIsRouteWeight(nodes, routes, p);
    }
    assert |p| > 1 ==> total.Some? by {
      WalkWeight(nodes, start, end);
    }
  }

  /**
   * The whole query: an endpoint missing from the routes fails with
   * NodeNotFound (the start is looked up first); otherwise the result is
   * either Unreachable or a path from the start to the end whose every step is
   * a given route, whose total price is at most the reported distance, and
   * whose distance is set whenever the path has an edge.
   */
  method ShortestPath(fromName: Id, toName: Id, routes: seq<Route>) returns (r: Result<Answer>)
    ensures fromName !in Ids(routes) ==> r == Err(NodeNotFound(fromName))
    ensures fromName in Ids(routes) && toName !in Ids(routes) ==> r == Err(NodeNotFound(toName))
    ensures fromName in Ids(routes) && toName in Ids(routes) ==> r.Ok? || r.error == Unreachable
    ensures fromName in Ids(routes) && toName in Ids(routes) ==> (r.Err? <==> Unreached(routes, fromName, toName))
    ensures r.Ok? ==> Answers(routes, fromName, toName, r.value)
    ensures r.Ok? ==>
      && fromName in Ids(routes) && toName in Ids(routes)
      && Walk(SolvedBuilt(routes, fromName), fromName, toName) == Ok(r.value.route)
      && r.value.total == SolvedBuilt(routes, fromName)[toName].potential
  {
    var g := BuildGraph(routes);
    assert g.nodes.Keys == Ids(routes) by {
      BuiltKeys(routes);
    }
    var startNode := g.GetNode(fromName);
    if startNode.Err? {
      return Err(startNode.error);
    }
    var endNode := g.GetNode(toName);
    if endNode.Err? {
      return Err(endNode.error);
    }
    BuiltWellFormed(routes);
    BuiltClosed(routes);
    r := Run(g, fromName, toName);
    assert g.nodes == SolvedBuilt(routes, fromName);
    if r.Ok? {
      SolvedPath(routes, g.nodes, fromName, toName);
    }
  }

  /**
   * The route and total promise: the route runs from the start to the end,
   * every step is a given route, the total is set whenever the route has a
   * step, and the route's price is at most the total.
   */
  ghost predicate Answers(routes: seq<Route>, fromName: Id, toName: Id, a: Answer) {
    var p := a.route;
    && |p| >= 1 && p[0] == fromName && p[|p| - 1] == toName
    && (forall i :: 1 <= i < |p| ==> p[i] != fromName && LastPrice(routes, p[i - 1], p[i]).Some?)
    && (|p| > 1 ==> a.total.Some?)
    && RouteWeight(routes, p) <= (if a.total.Some? then a.total.value else 0)
  }

  /** The table after propagation from start, on a table with no dangling edge. */
  ghost function Solved(nodes: map<Id, Node>, start: Id): (r: map<Id, Node>)
    requires start in nodes && Closed(nodes)
    ensures Grows(nodes, r)
  {
    Expansion.ExpandTotal(Search(nodes, [[start]], []), start);
    Expand(Search(nodes, [[start]], []), start).value.nodes
  }

  /** The end is not the start and propagation from the start over the built table leaves it without a potential. */
  ghost predicate Unreached(routes: seq<Route>, start: Id, end: Id)
    requires start in Ids(routes) && end in Ids(routes)
  {
    BuiltKeys(routes);
    BuiltClosed(routes);
    end != start && Solved(Built(routes), start)[end].potential.None?
  }

  /** The table that propagation from the start leaves on the table built from the routes. */
  ghost function SolvedBuilt(routes: seq<Route>, start: Id): (m: map<Id, Node>)
    requires start in Ids(routes)
    ensures m.Keys == Ids(routes) && PotInv(m, start)
  {
    BuiltKeys(routes);
    BuiltClosed(routes);
    BuiltWellFormed(routes);
    FreshPotInv(Built(routes), start);
    var s0 := Search(Built(routes), [[start]], []);
    Expansion.ExpandTotal(s0, start);
    Invariants.ExpandKeepsPotInv(s0, start, start);
    assert Solved(Built(routes), start) == Expand(s0, start).value.nodes;
    Solved(Built(routes), start)
  }

  /** A solver on the graph with both endpoints set, as printShortestPath creates it. */
  method Prepare(g: Graph, fromName: Id, toName: Id) returns (d: Dijkstra)
    requires WellFormed(g.nodes) && fromName in g.nodes && toName in g.nodes
    requires forall a :: a in g.nodes ==> Node.Fresh(g.nodes[a])
    ensures fresh(d) && d.graph == g && d.start == Some(fromName) && d.end == Some(toName) && d.Valid()
    ensures d.paths == [[fromName]] && d.order == [] && d.solution == []
  {
    FreshPotInv(g.nodes, fromName);
    d := new Dijkstra(g);
    d.SetStartingNode(fromName);
    d.SetEndingNode(toName);
  }

  /**
   * The first half of the solving part of printShortestPath: a solver on the
   * graph, with both endpoints set, after solve has run.
   */
  method SolveOn(g: Graph, fromName: Id, toName: Id) returns (d: Dijkstra, path: Result<seq<Id>>)
    requires WellFormed(g.nodes) && Closed(g.nodes) && fromName in g.nodes && toName in g.nodes
    requires forall a :: a in g.nodes ==> Node.Fresh(g.nodes[a])
    modifies g`nodes
    ensures d.graph == g && d.start == Some(fromName) && d.end == Some(toName) && d.Valid()
    ensures g.nodes == Solved(old(g.nodes), fromName)
    ensures path == Walk(g.nodes, fromName, toName)
    ensures path.Ok? ==> d.solution == path.value
  {
    d := Prepare(g, fromName, toName);
    ghost var s0 := Search(old(g.nodes), [[fromName]], []);
    assert d.State() == s0;
    assert Expand(s0, fromName).Ok? by {
      Expansion.ExpandTotal(s0, fromName);
    }
    path := d.Solve();
    assert g.nodes == Expand(s0, fromName).value.nodes;
  }

  /**
   * The solving half of printShortestPath, on a freshly built graph: the
   * route is the back-pointer walk of the solved table and the total is the
   * end node's potential.
   */
  method Run(g: Graph, fromName: Id, toName: Id) returns (r: Result<Answer>)
    requires WellFormed(g.nodes) && Closed(g.nodes) && fromName in g.nodes && toName in g.nodes
    requires forall a :: a in g.nodes ==> Node.Fresh(g.nodes[a])
    modifies g`nodes
    ensures g.nodes == Solved(old(g.nodes), fromName) && PotInv(g.nodes, fromName)
    ensures r.Ok? || r.error == Unreachable
    ensures r.Err? <==> toName != fromName && g.nodes[toName].potential.None?
    ensures r.Ok? ==> Walk(g.nodes, fromName, toName) == Ok(r.value.route) && r.value.total == g.nodes[toName].potential
  {
    var d, path := SolveOn(g, fromName, toName);
    WalkReaches(g.nodes, fromName, toName);
    if path.Err? {
      return Err(path.error);
    }
    var total := d.GetDistance();
    r := Ok(Answer(path.value, total.value));
  }
}
