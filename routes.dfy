/** Building the graph from a list of priced routes (the loop of printShortestPath). */
module Routes {
  import opened Outcomes
  import opened Nodes
  import opened Graphs

  datatype Route = Route(from: Id, to: Id, price: Weight)

  /** Every id a route mentions, as origin or destination. */
  function Ids(routes: seq<Route>): set<Id> {
    (set r | r in routes :: r.from) + (set r | r in routes :: r.to)
  }

  /** The price of the last route from `a` to `b`, if any. */
  function LastPrice(routes: seq<Route>, a: Id, b: Id): Option<Weight> {
    if routes == [] then None
    else
      var r := routes[|routes| - 1];
      if r.from == a && r.to == b then Some(r.price) else LastPrice(routes[..|routes| - 1], a, b)
  }

  /** One iteration of the loop: create each endpoint once, then connect. */
  function Step(nodes: map<Id, Node>, r: Route): (m: map<Id, Node>)
    ensures m.Keys == nodes.Keys + {r.from, r.to}
    ensures forall k :: k in nodes && k != r.from ==> m[k] == nodes[k]
    ensures forall k :: k in m && k !in nodes && k != r.from ==> m[k] == Node.New(k)
    ensures Distance(m[r.from].conns, r.to) == Some(r.price)
    ensures forall b :: b != r.to ==>
      Distance(m[r.from].conns, b) == if r.from in nodes then Distance(nodes[r.from].conns, b) else None
  {
    var n1 := if r.from in nodes then nodes else nodes[r.from := Node.New(r.from)];
    var n2 := if r.to in n1 then n1 else n1[r.to := Node.New(r.to)];
    var f := n2[r.from];
    assert f == if r.from in nodes then nodes[r.from] else Node.New(r.from);
    assert n2.Keys == nodes.Keys + {r.from, r.to};
    assert forall k :: k in n2 && k != r.from ==> n2[k] == if k in nodes then nodes[k] else Node.New(k);
    n2[r.from := f.Connect(r.to, r.price)]
  }

  /** The node table after the loop has run over `routes`. */
  function Built(routes: seq<Route>): (m: map<Id, Node>)
    ensures routes == [] ==> m == map[]
    ensures routes != [] ==> var last := routes[|routes| - 1];
      last.from in m && last.to in m && Distance(m[last.from].conns, last.to) == Some(last.price)
  {
    if routes == [] then map[] else Step(Built(routes[..|routes| - 1]), routes[|routes| - 1])
  }

  /** The ids of a non-empty list: those before its last route, and that route's two. */
  lemma IdsLast(routes: seq<Route>)
    requires routes != []
    ensures Ids(routes) == Ids(routes[..|routes| - 1]) + {routes[|routes| - 1].from, routes[|routes| - 1].to}
  {
    var init, r := routes[..|routes| - 1], routes[|routes| - 1];
    assert routes == init + [r];
    assert forall x :: x in routes <==> x in init || x == r;
  }

  /** The table holds each id of the routes exactly once, and nothing else. */
  lemma {:induction false} BuiltKeys(routes: seq<Route>)
    ensures Built(routes).Keys == Ids(routes)
  {
    if routes != [] {
      BuiltKeys(routes[..|routes| - 1]);
      IdsLast(routes);
    }
  }

  /** One step keeps the table well formed and free of search state. */
  lemma StepWellFormed(nodes: map<Id, Node>, r: Route)
    requires WellFormed(nodes) && forall a :: a in nodes ==> Node.Fresh(nodes[a])
    ensures WellFormed(Step(nodes, r)) && forall a :: a in Step(nodes, r) ==> Node.Fresh(Step(nodes, r)[a])
  {
  }

  /** The built table is well formed and carries no search state. */
  lemma {:induction false} BuiltWellFormed(routes: seq<Route>)
    ensures WellFormed(Built(routes))
    ensures forall a :: a in Built(routes) ==> Node.Fresh(Built(routes)[a])
  {
    if routes != [] {
      BuiltWellFormed(routes[..|routes| - 1]);
      StepWellFormed(Built(routes[..|routes| - 1]), routes[|routes| - 1]);
    }
  }

  /** One step of the loop keeps every edge weighted by the last route's price. */
  lemma StepWeights(m: map<Id, Node>, routes: seq<Route>)
    requires routes != []
    requires m.Keys == Ids(routes[..|routes| - 1])
    requires forall a, b :: a in m ==> Distance(m[a].conns, b) == LastPrice(routes[..|routes| - 1], a, b)
    ensures forall a, b :: a in Step(m, routes[|routes| - 1]) ==>
      Distance(Step(m, routes[|routes| - 1])[a].conns, b) == LastPrice(routes, a, b)
  {
    forall a, b | a in Step(m, routes[|routes| - 1])
      ensures Distance(Step(m, routes[|routes| - 1])[a].conns, b) == LastPrice(routes, a, b)
    {
      StepWeight(m, routes, a, b);
    }
  }

  lemma StepWeight(m: map<Id, Node>, routes: seq<Route>, a: Id, b: Id)
    requires routes != []
    requires m.Keys == Ids(routes[..|routes| - 1])
    requires a in m ==> Distance(m[a].conns, b) == LastPrice(routes[..|routes| - 1], a, b)
    requires a in Step(m, routes[|routes| - 1])
    ensures Distance(Step(m, routes[|routes| - 1])[a].conns, b) == LastPrice(routes, a, b)
  {
    var init, r := routes[..|routes| - 1], routes[|routes| - 1];
    if a !in m && LastPrice(init, a, b).Some? {
      LastPriceNamesIds(init, a, b);
    }
  }

  /**
   * The edges of every node are exactly the routes leaving it, each weighted
   * by the price of the last route for that pair.
   */
  lemma {:induction false} BuiltWeights(routes: seq<Route>)
    ensures forall a, b :: a in Built(routes) ==>
      Distance(Built(routes)[a].conns, b) == LastPrice(routes, a, b)
  {
    if routes != [] {
      BuiltWeights(routes[..|routes| - 1]);
      BuiltKeys(routes[..|routes| - 1]);
      StepWeights(Built(routes[..|routes| - 1]), routes);
    }
  }

  /** Every edge target is a node: building never leaves a dangling edge. */
  lemma {:induction false} BuiltClosed(routes: seq<Route>)
    ensures Closed(Built(routes))
  {
    BuiltKeys(routes);
    BuiltWeights(routes);
    var m := Built(routes);
    forall k, i | k in m && 0 <= i < |m[k].conns| ensures m[k].conns[i].to in m {
      var b := m[k].conns[i].to;
      assert Distance(m[k].conns, b).Some?;
      LastPriceNamesIds(routes, k, b);
    }
  }

  lemma {:induction false} LastPriceNamesIds(routes: seq<Route>, a: Id, b: Id)
    requires LastPrice(routes, a, b).Some?
    ensures a in Ids(routes) && b in Ids(routes)
  {
    IdsLast(routes);
    if !(routes[|routes| - 1].from == a && routes[|routes| - 1].to == b) {
      LastPriceNamesIds(routes[..|routes| - 1], a, b);
    }
  }

  /** The table after one more route is one more Step. */
  lemma BuiltPrefix(routes: seq<Route>, i: nat)
    requires i < |routes|
    ensures Built(routes[..i + 1]) == Step(Built(routes[..i]), routes[i])
  {
    assert routes[..i + 1][..i] == routes[..i];
  }

  /** One pass of the loop of printShortestPath: add the missing endpoints, then connect. */
  method AddRoute(g: Graph, route: Route)
    modifies g
    ensures g.nodes == Step(old(g.nodes), route)
  {
    var fromNode: Node;
    if route.from !in g.nodes {
      fromNode := Node.New(route.from);
      var added := g.Add(fromNode);
    } else {
      var got := g.GetNode(route.from);
      fromNode := got.value;
    }
    if route.to !in g.nodes {
      var toNode := Node.New(route.to);
      var added := g.Add(toNode);
    }
    // the node object is shared with the table, so connecting it updates the table
    assert fromNode == g.nodes[route.from];
    g.nodes := g.nodes[route.from := fromNode.Connect(route.to, route.price)];
  }

  /** printShortestPath, lines building the graph: one node per id, one edge per route. */
  method BuildGraph(routes: seq<Route>) returns (g: Graph)
    ensures fresh(g)
    ensures g.nodes == Built(routes)
  {
    g := new Graph();
    var i := 0;
    while i < |routes|
      invariant 0 <= i <= |routes|
      invariant g.nodes == Built(routes[..i])
    {
      AddRoute(g, routes[i]);
      BuiltPrefix(routes, i);
      i := i + 1;
    }
    assert routes[..i] == routes;
  }
}
