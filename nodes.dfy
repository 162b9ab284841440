/** A node of the graph: its outgoing weighted edges and its search state. */
module Nodes {
  import opened Outcomes

  type Id = string

  /** Edge prices are positive integers. */
  type Weight = w: int | w >= 1 witness 1

  datatype Edge = Edge(to: Id, weight: Weight)

  /** No two edges of a node lead to the same target (a PHP array keyed by target id). */
  predicate DistinctTargets(es: seq<Edge>) {
    forall i, j :: 0 <= i < j < |es| ==> es[i].to != es[j].to
  }

  /** The weight of the edge to `to`, if there is one (Node::getDistance). */
  function Distance(es: seq<Edge>, to: Id): (r: Option<Weight>)
    ensures r.Some? <==> exists i :: 0 <= i < |es| && es[i].to == to
    ensures DistinctTargets(es) ==>
      forall i :: 0 <= i < |es| && es[i].to == to ==> r == Some(es[i].weight)
  {
    if es == [] then None
    else if es[0].to == to then Some(es[0].weight)
    else
      var r := Distance(es[1..], to);
      assert forall i :: 1 <= i < |es| ==> es[i] == es[1..][i - 1];
      r
  }

  /** Sets the weight of the edge to `to`, keeping its place, or appends a new edge. */
  function Upsert(es: seq<Edge>, to: Id, w: Weight): (r: seq<Edge>)
    ensures Edge(to, w) in r
    ensures |es| <= |r| <= |es| + 1
  {
    if es == [] then [Edge(to, w)]
    else if es[0].to == to then [Edge(to, w)] + es[1..]
    else [es[0]] + Upsert(es[1..], to, w)
  }

  lemma {:induction false} UpsertSpec(es: seq<Edge>, to: Id, w: Weight)
    ensures var r := Upsert(es, to, w);
      && Distance(r, to) == Some(w)
      && (forall b :: b != to ==> Distance(r, b) == Distance(es, b))
      && |r| == (if Distance(es, to).Some? then |es| else |es| + 1)
      && (forall i :: 0 <= i < |es| ==> r[i].to == es[i].to)
  {
    UpsertWeights(es, to, w);
    UpsertPositions(es, to, w);
  }

  /** The distance through a list that starts with e. */
  lemma DistanceCons(e: Edge, es: seq<Edge>, to: Id)
    ensures Distance([e] + es, to) == if e.to == to then Some(e.weight) else Distance(es, to)
  {
    assert ([e] + es)[0] == e && ([e] + es)[1..] == es;
  }

  lemma {:induction false} UpsertWeights(es: seq<Edge>, to: Id, w: Weight)
    ensures Distance(Upsert(es, to, w), to) == Some(w)
    ensures forall b :: b != to ==> Distance(Upsert(es, to, w), b) == Distance(es, b)
  {
    if es == [] {
      assert forall b :: b != to ==> Distance([Edge(to, w)], b) == None by {
        forall b | b != to {
          DistanceCons(Edge(to, w), [], b);
        }
      }
    } else {
      var t := if es[0].to == to then es[1..] else Upsert(es[1..], to, w);
      var e := if es[0].to == to then Edge(to, w) else es[0];
      assert Upsert(es, to, w) == [e] + t;
      assert es == [es[0]] + es[1..];
      if es[0].to != to {
        UpsertWeights(es[1..], to, w);
      }
      DistanceCons(e, t, to);
      forall b | b != to ensures Distance([e] + t, b) == Distance(es, b) {
        DistanceCons(e, t, b);
        DistanceCons(es[0], es[1..], b);
      }
    }
  }

  lemma {:induction false} UpsertPositions(es: seq<Edge>, to: Id, w: Weight)
    ensures |Upsert(es, to, w)| == (if Distance(es, to).Some? then |es| else |es| + 1)
    ensures forall i :: 0 <= i < |es| ==> Upsert(es, to, w)[i].to == es[i].to
  {
    if es != [] && es[0].to != to {
      UpsertPositions(es[1..], to, w);
      DistanceCons(es[0], es[1..], to);
      assert es == [es[0]] + es[1..];
      var t := Upsert(es[1..], to, w);
      assert forall i :: 1 <= i < |es| ==> ([es[0]] + t)[i] == t[i - 1] && es[i] == es[1..][i - 1];
    }
  }

  lemma {:induction false} UpsertDistinct(es: seq<Edge>, to: Id, w: Weight)
    ensures DistinctTargets(es) ==> DistinctTargets(Upsert(es, to, w))
  {
    if DistinctTargets(es) && es != [] {
      DistinctSplit(es);
      if es[0].to == to {
        DistinctCons(Edge(to, w), es[1..]);
      } else {
        UpsertDistinct(es[1..], to, w);
        UpsertWeights(es[1..], to, w);
        DistinctCons(es[0], Upsert(es[1..], to, w));
      }
    }
  }

  /** A distinct list: its head's target is not in its tail, and its tail is distinct. */
  lemma DistinctSplit(es: seq<Edge>)
    requires es != [] && DistinctTargets(es)
    ensures DistinctTargets(es[1..]) && Distance(es[1..], es[0].to).None?
  {
    var t := es[1..];
    assert forall i :: 0 <= i < |t| ==> t[i] == es[i + 1];
  }

  /** Putting e in front of a distinct list that does not reach e's target keeps it distinct. */
  lemma DistinctCons(e: Edge, t: seq<Edge>)
    requires DistinctTargets(t) && Distance(t, e.to).None?
    ensures DistinctTargets([e] + t)
  {
    var r := [e] + t;
    assert forall i :: 1 <= i < |r| ==> r[i] == t[i - 1];
  }

  datatype Node = Node(id: Id, conns: seq<Edge>, potential: Option<int>, from: Option<Id>, passed: bool)
  {
    /** A fresh node (Node::__construct): no edges, no potential, not passed. */
    static function New(id: Id): (n: Node)
      ensures n.id == id && n.conns == [] && Fresh(n)
    {
      Node(id, [], None, None, false)
    }

    /** No search state at all. */
    static predicate Fresh(n: Node) {
      n.potential.None? && n.from.None? && !n.passed
    }

    /** PHP truthiness of the potential: neither unset nor 0. */
    predicate HasPotential() {
      potential.Some? && potential.value != 0
    }

    /** The potential as an operand of `+`: an unset potential reads as 0. */
    function PotentialValue(): int {
      if potential.Some? then potential.value else 0
    }

    /** Node::connect: sets or overwrites only the edge to `to`. */
    function Connect(to: Id, w: Weight): (r: Node)
      ensures r.id == id && r.potential == potential && r.from == from && r.passed == passed
      ensures Distance(r.conns, to) == Some(w)
      ensures forall b :: b != to ==> Distance(r.conns, b) == Distance(conns, b)
      ensures |r.conns| == if Distance(conns, to).Some? then |conns| else |conns| + 1
      ensures forall i :: 0 <= i < |conns| ==> r.conns[i].to == conns[i].to
      ensures DistinctTargets(conns) ==> DistinctTargets(r.conns)
    {
      UpsertSpec(conns, to, w);
      UpsertDistinct(conns, to, w);
      this.(conns := Upsert(conns, to, w))
    }

    /**
     * Node::setPotential: adopts `candidate` (and `source` as its origin) exactly
     * when the node has no truthy potential or the candidate is strictly smaller;
     * the flag says whether it did.
     */
    function SetPotential(candidate: int, source: Id): (r: (Node, bool))
      ensures r.1 <==> !HasPotential() || candidate < potential.value
      ensures r.1 ==> r.0.potential == Some(candidate) && r.0.from == Some(source)
      ensures !r.1 ==> r.0 == this
      ensures r.0.id == id && r.0.conns == conns && r.0.passed == passed
      ensures HasPotential() ==> r.0.PotentialValue() <= PotentialValue()
    {
      if !HasPotential() || candidate < potential.value then
        (this.(potential := Some(candidate), from := Some(source)), true)
      else
        (this, false)
    }

    /** Node::markPassed: sets only the passed flag; idempotent. */
    function MarkPassed(): (r: Node)
      ensures r.passed
      ensures r.(passed := passed) == this
      ensures passed ==> r == this
    {
      this.(passed := true)
    }
  }
}
