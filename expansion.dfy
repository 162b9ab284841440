/** Each node is expanded at most once; every surviving neighbour ends up passed; closed graphs never fail. */
module Expansion {
  import opened Outcomes
  import opened Nodes
  import opened Graphs
  import opened Flip
  import opened Propagation

  predicate Prefix(a: seq<Id>, b: seq<Id>) {
    |a| <= |b| && b[..|a|] == a
  }

  lemma PrefixTrans(a: seq<Id>, b: seq<Id>, c: seq<Id>)
    requires Prefix(a, b) && Prefix(b, c)
    ensures Prefix(a, c)
  {
    assert c[..|a|] == c[..|b|][..|a|];
  }

  /** The expansion log lists each passed node exactly once. */
  predicate OrderInv(s: Search) {
    && (forall i, j :: 0 <= i < j < |s.order| ==> s.order[i] != s.order[j])
    && (forall i :: 0 <= i < |s.order| ==> s.order[i] in s.nodes)
    && (forall k :: k in s.nodes ==> (s.nodes[k].passed <==> k in s.order))
  }

  /**
   * Expanding an unpassed node logs it right after the nodes expanded before,
   * and no node is ever expanded twice.
   */
  lemma {:induction false} ExpandOnce(s: Search, n: Id)
    requires n in s.nodes && !s.nodes[n].passed && OrderInv(s)
    ensures Expand(s, n).Ok? ==>
      var r := Expand(s, n).value;
      OrderInv(r) && Prefix(s.order + [n], r.order)
    decreases |Unpassed(s.nodes) - {n}|, 1, 0
  {
    var conns := s.nodes[n].conns;
    if RelaxEdges(s, n, conns).Ok? {
      var s1 := RelaxEdges(s, n, conns).value;
      var s2 := Marked(s1, n);
      MarkedUnpassed(s.nodes, s1, n);
      assert OrderInv(s2);
      VisitOnce(s2, Flipped(conns));
    }
  }

  lemma {:induction false} VisitOnce(s: Search, es: seq<Edge>)
    requires OrderInv(s)
    ensures Visit(s, es).Ok? ==>
      var r := Visit(s, es).value;
      OrderInv(r) && Prefix(s.order, r.order)
    decreases |Unpassed(s.nodes)|, 0, |es|
  {
    if es != [] && es[0].to in s.nodes {
      if s.nodes[es[0].to].passed {
        VisitOnce(s, es[1..]);
      } else if Expand(s, es[0].to).Ok? {
        var s1 := Expand(s, es[0].to).value;
        ExpandOnce(s, es[0].to);
        PrefixTrans(s.order, s.order + [es[0].to], s1.order);
        SubsetCard(Unpassed(s1.nodes), Unpassed(s.nodes));
        VisitOnce(s1, es[1..]);
        if Visit(s1, es[1..]).Ok? {
          PrefixTrans(s.order, s1.order, Visit(s1, es[1..]).value.order);
        }
      }
    }
  }

  /** After expanding n, n and every neighbour that survives the flip are passed. */
  lemma {:induction false} ExpandReaches(s: Search, n: Id)
    requires n in s.nodes
    ensures Expand(s, n).Ok? ==>
      var r := Expand(s, n).value;
      r.nodes[n].passed && forall e :: e in Flipped(s.nodes[n].conns) ==> e.to in r.nodes && r.nodes[e.to].passed
    decreases |Unpassed(s.nodes) - {n}|, 1, 0
  {
    var conns := s.nodes[n].conns;
    if RelaxEdges(s, n, conns).Ok? {
      var s1 := RelaxEdges(s, n, conns).value;
      var s2 := Marked(s1, n);
      MarkedUnpassed(s.nodes, s1, n);
      VisitReaches(s2, Flipped(conns));
    }
  }

  lemma {:induction false} VisitReaches(s: Search, es: seq<Edge>)
    ensures Visit(s, es).Ok? ==>
      var r := Visit(s, es).value;
      forall e :: e in es ==> e.to in r.nodes && r.nodes[e.to].passed
    decreases |Unpassed(s.nodes)|, 0, |es|
  {
    if es != [] && es[0].to in s.nodes {
      assert forall e :: e in es ==> e == es[0] || e in es[1..];
      if s.nodes[es[0].to].passed {
        VisitReaches(s, es[1..]);
      } else if Expand(s, es[0].to).Ok? {
        var s1 := Expand(s, es[0].to).value;
        ExpandReaches(s, es[0].to);
        SubsetCard(Unpassed(s1.nodes), Unpassed(s.nodes));
        VisitReaches(s1, es[1..]);
      }
    }
  }

  /** On a closed graph (every edge target a node) propagation never fails. */
  lemma {:induction false} ExpandTotal(s: Search, n: Id)
    requires n in s.nodes && Closed(s.nodes)
    ensures Expand(s, n).Ok?
    decreases |Unpassed(s.nodes) - {n}|, 1, 0
  {
    var conns := s.nodes[n].conns;
    RelaxEdgesTotal(s, n, conns);
    var s1 := RelaxEdges(s, n, conns).value;
    var s2 := Marked(s1, n);
    MarkedUnpassed(s.nodes, s1, n);
    FlippedOrder(conns);
    forall e | e in Flipped(conns) ensures e.to in s2.nodes {
      var k :| LastOfWeight(conns, k) && conns[k] == e;
    }
    VisitTotal(s2, Flipped(conns));
  }

  lemma {:induction false} RelaxEdgesTotal(s: Search, n: Id, es: seq<Edge>)
    requires n in s.nodes && forall e :: e in es ==> e.to in s.nodes
    ensures RelaxEdges(s, n, es).Ok?
    decreases |es|
  {
    if es != [] {
      var s1 := RelaxEdge(s, n, es[0]).value;
      assert forall e :: e in es[1..] ==> e in es;
      RelaxEdgesTotal(s1, n, es[1..]);
    }
  }

  lemma {:induction false} VisitTotal(s: Search, es: seq<Edge>)
    requires Closed(s.nodes) && forall e :: e in es ==> e.to in s.nodes
    ensures Visit(s, es).Ok?
    decreases |Unpassed(s.nodes)|, 0, |es|
  {
    if es != [] {
      assert forall e :: e in es[1..] ==> e in es;
      if s.nodes[es[0].to].passed {
        VisitTotal(s, es[1..]);
      } else {
        ExpandTotal(s, es[0].to);
        var s1 := Expand(s, es[0].to).value;
        SubsetCard(Unpassed(s1.nodes), Unpassed(s.nodes));
        VisitTotal(s1, es[1..]);
      }
    }
  }
}
