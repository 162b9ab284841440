/** What propagation preserves: the back-pointer invariant, single expansion, totality on closed graphs. */
module Invariants {
  import opened Outcomes
  import opened Nodes
  import opened Graphs
  import opened Flip
  import opened Propagation
  import opened BackPointers

  /** A set potential stays set. */
  predicate KeepsPotentials(a: map<Id, Node>, b: map<Id, Node>) {
    forall k :: k in a && a[k].potential.Some? ==> k in b && b[k].potential.Some?
  }

  lemma GrowsWellFormed(a: map<Id, Node>, b: map<Id, Node>)
    requires WellFormed(a) && Grows(a, b)
    ensures WellFormed(b)
  {
  }

  /** One relaxation keeps the invariant and leaves the target with a potential. */
  lemma RelaxEdgeKeepsPotInv(s: Search, n: Id, e: Edge, start: Id)
    requires n in s.nodes && WellFormed(s.nodes) && PotInv(s.nodes, start)
    requires e in s.nodes[n].conns
    requires n == start || s.nodes[n].potential.Some?
    ensures RelaxEdge(s, n, e).Ok? ==>
      var t := RelaxEdge(s, n, e).value.nodes;
      PotInv(t, start) && KeepsPotentials(s.nodes, t) && t[e.to].potential.Some?
  {
    if e.to in s.nodes {
      EdgeWeight(s.nodes, n, e);
      RelaxedTable(s, n, e);
      RelaxedKeepsPotInv(s.nodes, n, e.to, e.weight, start);
    }
  }

  lemma EdgeWeight(nodes: map<Id, Node>, n: Id, e: Edge)
    requires n in nodes && WellFormed(nodes)
    requires e in nodes[n].conns
    ensures Distance(nodes[n].conns, e.to) == Some(e.weight)
  {
    var conns := nodes[n].conns;
    assert DistinctTargets(conns);
    var i :| 0 <= i < |conns| && conns[i] == e;
  }

  lemma RelaxedTable(s: Search, n: Id, e: Edge)
    requires n in s.nodes && e.to in s.nodes
    ensures RelaxEdge(s, n, e).value.nodes == Relaxed(s.nodes, n, e.to, e.weight)
  {
  }

  lemma RelaxedKeepsPotInv(nodes: map<Id, Node>, n: Id, v: Id, w: Weight, start: Id)
    requires n in nodes && v in nodes && PotInv(nodes, start)
    requires Distance(nodes[n].conns, v) == Some(w)
    requires n == start || nodes[n].potential.Some?
    ensures var t := Relaxed(nodes, n, v, w);
      PotInv(t, start) && KeepsPotentials(nodes, t) && t[v].potential.Some?
  {
    var t := Relaxed(nodes, n, v, w);
    forall x | x in t ensures PotOk(t, start, x) {
      RelaxKeepsPotOk(nodes, n, v, w, start, x);
    }
    RelaxedSetsPotential(nodes, n, v, w);
  }

  /** After relaxing n -> v, v has a potential and no potential was unset. */
  lemma RelaxedSetsPotential(nodes: map<Id, Node>, n: Id, v: Id, w: Weight)
    requires n in nodes && v in nodes
    ensures var t := Relaxed(nodes, n, v, w);
      KeepsPotentials(nodes, t) && t[v].potential.Some?
  {
    var upd := nodes[v].SetPotential(nodes[n].PotentialValue() + w, n);
    assert upd.1 ==> upd.0.potential.Some?;
    assert !upd.1 ==> nodes[v].HasPotential();
  }

  /**
   * The table part of `Propagation.RelaxEdge` for the edge n -> v of weight w,
   * without the search's paths; `RelaxedTable` proves the two agree.
   */
  function Relaxed(nodes: map<Id, Node>, n: Id, v: Id, w: Weight): map<Id, Node>
    requires n in nodes && v in nodes
  {
    nodes[v := nodes[v].SetPotential(nodes[n].PotentialValue() + w, n).0]
  }

  lemma RelaxKeepsPotOk(nodes: map<Id, Node>, n: Id, v: Id, w: Weight, start: Id, x: Id)
    requires n in nodes && v in nodes && x in nodes && PotInv(nodes, start)
    requires Distance(nodes[n].conns, v) == Some(w)
    requires n == start || nodes[n].potential.Some?
    ensures PotOk(Relaxed(nodes, n, v, w), start, x)
  {
    if !nodes[v].SetPotential(nodes[n].PotentialValue() + w, n).1 {
      assert Relaxed(nodes, n, v, w) == nodes[v := nodes[v]] == nodes;
      assert PotOk(nodes, start, x);
    } else if x == v {
      RelaxTargetOk(nodes, n, v, w, start);
    } else {
      RelaxOtherOk(nodes, n, v, w, start, x);
    }
  }

  /** The relaxed target's new back-pointer is the edge just relaxed. */
  lemma RelaxTargetOk(nodes: map<Id, Node>, n: Id, v: Id, w: Weight, start: Id)
    requires n in nodes && v in nodes && PotInv(nodes, start)
    requires Distance(nodes[n].conns, v) == Some(w)
    requires n == start || nodes[n].potential.Some?
    requires nodes[v].SetPotential(nodes[n].PotentialValue() + w, n).1
    ensures PotOk(Relaxed(nodes, n, v, w), start, v)
  {
    var t := Relaxed(nodes, n, v, w);
    assert PotOk(nodes, start, n);
    assert n != start ==> n != v;
    assert t[n].conns == nodes[n].conns;
    assert BackEdge(t, start, v, n);
  }

  /** Lowering v's potential keeps every other node's back edge, including one through v. */
  lemma RelaxOtherOk(nodes: map<Id, Node>, n: Id, v: Id, w: Weight, start: Id, x: Id)
    requires n in nodes && v in nodes && x in nodes && x != v && PotInv(nodes, start)
    requires Distance(nodes[n].conns, v) == Some(w)
    requires n == start || nodes[n].potential.Some?
    requires nodes[v].SetPotential(nodes[n].PotentialValue() + w, n).1
    ensures PotOk(Relaxed(nodes, n, v, w), start, x)
  {
    var t := Relaxed(nodes, n, v, w);
    assert PotOk(nodes, start, x);
    assert t[x] == nodes[x];
    if t[x].from.Some? {
      var u := t[x].from.value;
      assert BackEdge(nodes, start, x, u);
      if u == v && u != start {
        assert PotOk(nodes, start, v);
      }
    }
  }

  /** The relaxation loop keeps the invariant and gives every target a potential. */
  lemma {:induction false} RelaxEdgesKeepsPotInv(s: Search, n: Id, es: seq<Edge>, start: Id)
    requires n in s.nodes && WellFormed(s.nodes) && PotInv(s.nodes, start)
    requires forall e :: e in es ==> e in s.nodes[n].conns
    requires n == start || s.nodes[n].potential.Some?
    ensures RelaxEdges(s, n, es).Ok? ==>
      var t := RelaxEdges(s, n, es).value.nodes;
      && PotInv(t, start) && KeepsPotentials(s.nodes, t)
      && forall e :: e in es ==> e.to in t && t[e.to].potential.Some?
    decreases |es|
  {
    if es != [] && RelaxEdge(s, n, es[0]).Ok? {
      var s1 := RelaxEdge(s, n, es[0]).value;
      RelaxEdgeKeepsPotInv(s, n, es[0], start);
      assert forall e :: e in es ==> e == es[0] || e in es[1..];
      RelaxEdgesKeepsPotInv(s1, n, es[1..], start);
    }
  }

  /**
   * Propagation keeps the back-pointer invariant, starting from the start
   * node or from any node that already has a potential.
   */
  lemma {:induction false} ExpandKeepsPotInv(s: Search, n: Id, start: Id)
    requires n in s.nodes && WellFormed(s.nodes) && PotInv(s.nodes, start)
    requires n == start || s.nodes[n].potential.Some?
    ensures Expand(s, n).Ok? ==>
      PotInv(Expand(s, n).value.nodes, start) && KeepsPotentials(s.nodes, Expand(s, n).value.nodes)
    decreases |Unpassed(s.nodes) - {n}|, 1, 0
  {
    var conns := s.nodes[n].conns;
    RelaxEdgesKeepsPotInv(s, n, conns, start);
    if RelaxEdges(s, n, conns).Ok? {
      var s1 := RelaxEdges(s, n, conns).value;
      var s2 := Marked(s1, n);
      MarkedUnpassed(s.nodes, s1, n);
      MarkKeepsPotInv(s.nodes, s1.nodes, n, start);
      FlippedTargetsHavePotential(conns, s2.nodes);
      VisitKeepsPotInv(s2, Flipped(conns), start);
    }
  }

  /** Marking n passed after its relaxation loop keeps the invariant and the shape. */
  lemma MarkKeepsPotInv(before: map<Id, Node>, after: map<Id, Node>, n: Id, start: Id)
    requires n in before && WellFormed(before) && SameShape(before, after)
    requires PotInv(after, start) && KeepsPotentials(before, after)
    ensures var marked := after[n := after[n].MarkPassed()];
      WellFormed(marked) && PotInv(marked, start) && KeepsPotentials(before, marked)
  {
    var marked := after[n := after[n].MarkPassed()];
    forall x | x in marked ensures PotOk(marked, start, x) {
      MarkKeepsPotOk(after, n, start, x);
    }
  }

  /** Marking n touches only its passed flag, which the invariant does not mention. */
  lemma MarkKeepsPotOk(after: map<Id, Node>, n: Id, start: Id, x: Id)
    requires n in after && x in after && PotOk(after, start, x)
    ensures PotOk(after[n := after[n].MarkPassed()], start, x)
  {
    var marked := after[n := after[n].MarkPassed()];
    assert forall k :: k in after ==>
      k in marked && marked[k].potential == after[k].potential && marked[k].from == after[k].from && marked[k].conns == after[k].conns;
  }


  lemma FlippedTargetsHavePotential(conns: seq<Edge>, nodes: map<Id, Node>)
    requires forall e :: e in conns ==> e.to in nodes && nodes[e.to].potential.Some?
    ensures forall e :: e in Flipped(conns) && e.to in nodes ==> nodes[e.to].potential.Some?
  {
    FlippedOrder(conns);
    forall e | e in Flipped(conns) ensures e in conns {
      var k :| LastOfWeight(conns, k) && conns[k] == e;
    }
  }

  lemma {:induction false} VisitKeepsPotInv(s: Search, es: seq<Edge>, start: Id)
    requires WellFormed(s.nodes) && PotInv(s.nodes, start)
    requires forall e :: e in es && e.to in s.nodes ==> s.nodes[e.to].potential.Some?
    ensures Visit(s, es).Ok? ==>
      PotInv(Visit(s, es).value.nodes, start) && KeepsPotentials(s.nodes, Visit(s, es).value.nodes)
    decreases |Unpassed(s.nodes)|, 0, |es|
  {
    if es != [] && es[0].to in s.nodes {
      assert forall e :: e in es[1..] ==> e in es;
      if s.nodes[es[0].to].passed {
        VisitKeepsPotInv(s, es[1..], start);
      } else if Expand(s, es[0].to).Ok? {
        var s1 := Expand(s, es[0].to).value;
        ExpandKeepsPotInv(s, es[0].to, start);
        GrowsWellFormed(s.nodes, s1.nodes);
        SubsetCard(Unpassed(s1.nodes), Unpassed(s.nodes));
        VisitKeepsPotInv(s1, es[1..], start);
      }
    }
  }
}
