/**
 * Dijkstra::calculatePotentials as functions on the search state: relax every
 * edge in insertion order, record partial paths, mark the node passed, then
 * recurse into the unpassed neighbours in flipped, descending-weight order.
 */
module Propagation {
  import opened Outcomes
  import opened Nodes
  import opened Graphs
  import opened Flip

  /**
   * Everything calculatePotentials changes: the node table, the bookkeeping
   * list of partial paths, and the order in which nodes were expanded.
   */
  datatype Search = Search(nodes: map<Id, Node>, paths: seq<seq<Id>>, order: seq<Id>)

  function Unpassed(nodes: map<Id, Node>): set<Id> {
    set k | k in nodes && !nodes[k].passed
  }

  /** The recursion only moves forward: same ids, ids and edges, passed nodes stay passed. */
  predicate Grows(a: map<Id, Node>, b: map<Id, Node>) {
    && a.Keys == b.Keys
    && (forall k :: k in a ==> b[k].id == a[k].id && b[k].conns == a[k].conns && (a[k].passed ==> b[k].passed))
    && Unpassed(b) <= Unpassed(a)
  }

  /** Same ids, edges and passed flags: only potentials and origins differ. */
  predicate SameShape(a: map<Id, Node>, b: map<Id, Node>) {
    && a.Keys == b.Keys
    && forall k :: k in a ==> b[k].id == a[k].id && b[k].conns == a[k].conns && b[k].passed == a[k].passed
  }

  predicate Ends(p: seq<Id>, n: Id) {
    |p| > 0 && p[|p| - 1] == n
  }

  /** The paths appended for the edge n -> v: each recorded path ending in n, extended by v. */
  function Extensions(ps: seq<seq<Id>>, n: Id, v: Id): (r: seq<seq<Id>>)
    ensures |r| <= |ps|
  {
    if ps == [] then []
    else
      var p := ps[|ps| - 1];
      Extensions(ps[..|ps| - 1], n, v) + (if Ends(p, n) then [p + [v]] else [])
  }

  /** Every appended path is a recorded path that ends in n, extended by v. */
  lemma {:induction false} ExtensionsSpec(ps: seq<seq<Id>>, n: Id, v: Id)
    ensures forall q :: q in Extensions(ps, n, v) ==>
      |q| >= 2 && q[|q| - 1] == v && Ends(q[..|q| - 1], n) && q[..|q| - 1] in ps
  {
    if ps != [] {
      ExtensionsSpec(ps[..|ps| - 1], n, v);
    }
  }

  /** Every recorded path that ends in n is appended, extended by v. */
  lemma {:induction false} ExtensionsComplete(ps: seq<seq<Id>>, n: Id, v: Id)
    ensures forall p :: p in ps && Ends(p, n) ==> p + [v] in Extensions(ps, n, v)
  {
    if ps != [] {
      var init := ps[..|ps| - 1];
      ExtensionsComplete(init, n, v);
      assert ps == init + [ps[|ps| - 1]];
    }
  }

  /** One iteration of the relaxation loop for the edge e of node n. */
  function RelaxEdge(s: Search, n: Id, e: Edge): (r: Result<Search>)
    requires n in s.nodes
    ensures r.Ok? <==> e.to in s.nodes
    ensures r.Err? ==> r.error == NodeNotFound(e.to)
    ensures r.Ok? ==> SameShape(s.nodes, r.value.nodes) && r.value.order == s.order
  {
    if e.to !in s.nodes then Err(NodeNotFound(e.to))
    else
      var relaxed := s.nodes[e.to].SetPotential(s.nodes[n].PotentialValue() + e.weight, n);
      Ok(s.(nodes := s.nodes[e.to := relaxed.0], paths := s.paths + Extensions(s.paths, n, e.to)))
  }

  /** The relaxation loop over the edges es, stopping at the first dangling edge. */
  function RelaxEdges(s: Search, n: Id, es: seq<Edge>): (r: Result<Search>)
    requires n in s.nodes
    ensures r.Ok? ==> SameShape(s.nodes, r.value.nodes) && r.value.order == s.order
    decreases |es|
  {
    if es == [] then Ok(s)
    else
      match RelaxEdge(s, n, es[0])
      case Err(e) => Err(e)
      case Ok(s1) => RelaxEdges(s1, n, es[1..])
  }

  /** Node::markPassed on n, logged as n's expansion. */
  function Marked(s: Search, n: Id): (r: Search)
    requires n in s.nodes
    ensures r.nodes.Keys == s.nodes.Keys && r.nodes[n].passed
    ensures forall k :: k in s.nodes && k != n ==> r.nodes[k] == s.nodes[k]
    ensures r.nodes[n].(passed := s.nodes[n].passed) == s.nodes[n]
    ensures r.paths == s.paths && r.order == s.order + [n]
  {
    s.(nodes := s.nodes[n := s.nodes[n].MarkPassed()], order := s.order + [n])
  }

  /** calculatePotentials(n) on the search state s. */
  function Expand(s: Search, n: Id): (r: Result<Search>)
    requires n in s.nodes
    ensures r.Ok? ==> Grows(s.nodes, r.value.nodes)
    decreases |Unpassed(s.nodes) - {n}|, 1, 0
  {
    match RelaxEdges(s, n, s.nodes[n].conns)
    case Err(e) => Err(e)
    case Ok(s1) =>
      var s2 := Marked(s1, n);
      MarkedUnpassed(s.nodes, s1, n);
      MarkedGrows(s.nodes, s1, n);
      var r := Visit(s2, Flipped(s.nodes[n].conns));
      if r.Err? then r else GrowsTrans(s.nodes, s2.nodes, r.value.nodes); r
  }

  /** The recursion loop: expand each unpassed target of es, in order. */
  function Visit(s: Search, es: seq<Edge>): (r: Result<Search>)
    ensures r.Ok? ==> Grows(s.nodes, r.value.nodes)
    decreases |Unpassed(s.nodes)|, 0, |es|
  {
    if es == [] then Ok(s)
    else if es[0].to !in s.nodes then Err(NodeNotFound(es[0].to))
    else if s.nodes[es[0].to].passed then Visit(s, es[1..])
    else
      match Expand(s, es[0].to)
      case Err(e) => Err(e)
      case Ok(s1) =>
        SubsetCard(Unpassed(s1.nodes), Unpassed(s.nodes));
        Visit(s1, es[1..])
  }

  /** Marking n after relaxing its edges removes exactly n from the unpassed ids. */
  lemma MarkedUnpassed(nodes: map<Id, Node>, s1: Search, n: Id)
    requires n in nodes && SameShape(nodes, s1.nodes)
    ensures Unpassed(Marked(s1, n).nodes) == Unpassed(nodes) - {n}
  {
  }

  /** Marking n after relaxing its edges moves the table forward. */
  lemma MarkedGrows(nodes: map<Id, Node>, s1: Search, n: Id)
    requires n in nodes && SameShape(nodes, s1.nodes)
    ensures Grows(nodes, Marked(s1, n).nodes)
  {
    MarkedUnpassed(nodes, s1, n);
  }

  lemma GrowsTrans(a: map<Id, Node>, b: map<Id, Node>, c: map<Id, Node>)
    requires Grows(a, b) && Grows(b, c)
    ensures Grows(a, c)
  {
  }

  lemma {:induction false} SubsetCard<T>(a: set<T>, b: set<T>)
    requires a <= b
    ensures |a| <= |b|
  {
    if a != {} {
      var x :| x in a;
      SubsetCard(a - {x}, b - {x});
    }
  }
}
