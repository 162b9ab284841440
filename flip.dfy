/**
 * The order in which calculatePotentials recurses into neighbours: the edge
 * list is flipped into a weight-keyed table (a later edge of the same weight
 * replaces an earlier one) and sorted by descending weight.
 */
module Flip {
  import opened Nodes

  /** Edge `k` is the last edge of its weight. */
  predicate LastOfWeight(es: seq<Edge>, k: int) {
    0 <= k < |es| && forall j :: k < j < |es| ==> es[j].weight != es[k].weight
  }

  predicate WeightOccurs(es: seq<Edge>, w: Weight) {
    exists j :: 0 <= j < |es| && es[j].weight == w
  }

  /** The edges that survive array_flip, in their original order. */
  function Survivors(es: seq<Edge>): (r: seq<Edge>)
    ensures |r| <= |es|
    ensures forall e :: e in r ==> e in es
  {
    if es == [] then []
    else (if WeightOccurs(es[1..], es[0].weight) then [] else [es[0]]) + Survivors(es[1..])
  }

  predicate StrictlyDescending(es: seq<Edge>) {
    forall i, j :: 0 <= i < j < |es| ==> es[i].weight > es[j].weight
  }

  /** Places `e` before the first edge of smaller weight. */
  function Insert(e: Edge, es: seq<Edge>): (r: seq<Edge>)
    ensures multiset(r) == multiset(es) + multiset{e}
  {
    if es == [] || e.weight > es[0].weight then [e] + es
    else
      assert es == [es[0]] + es[1..];
      [es[0]] + Insert(e, es[1..])
  }

  /** krsort on the flipped table: insertion sort by descending weight. */
  function SortDescending(es: seq<Edge>): (r: seq<Edge>)
    ensures multiset(r) == multiset(es)
  {
    if es == [] then []
    else
      assert es == [es[0]] + es[1..];
      Insert(es[0], SortDescending(es[1..]))
  }

  /** The neighbours calculatePotentials recurses into, in order. */
  function Flipped(es: seq<Edge>): (r: seq<Edge>)
    ensures |r| <= |es|
    ensures forall e :: e in r ==> e in es
  {
    var r := SortDescending(Survivors(es));
    assert |r| == |multiset(r)| == |Survivors(es)|;
    assert forall e :: e in r ==> e in multiset(r) && e in Survivors(es);
    r
  }

  lemma {:induction false} SurvivorsSpec(es: seq<Edge>)
    ensures forall e :: e in Survivors(es) <==> exists k :: LastOfWeight(es, k) && es[k] == e
    ensures forall i, j :: 0 <= i < j < |Survivors(es)| ==>
      Survivors(es)[i].weight != Survivors(es)[j].weight
  {
    if es != [] {
      var t := es[1..];
      SurvivorsSpec(t);
      var s := Survivors(es);
      var head := if WeightOccurs(t, es[0].weight) then [] else [es[0]];
      assert s == head + Survivors(t);
      forall k | 1 <= k < |es| ensures LastOfWeight(es, k) <==> LastOfWeight(t, k - 1) {
        assert forall j :: k < j < |es| ==> es[j] == t[j - 1];
        assert forall j :: k - 1 < j < |t| ==> t[j] == es[j + 1];
      }
      assert LastOfWeight(es, 0) <==> !WeightOccurs(t, es[0].weight) by {
        if !LastOfWeight(es, 0) {
          var j :| 0 < j < |es| && es[j].weight == es[0].weight;
          assert t[j - 1] == es[j];
        }
      }
      forall e ensures e in s <==> exists k :: LastOfWeight(es, k) && es[k] == e {
        if e in Survivors(t) {
          var k :| LastOfWeight(t, k) && t[k] == e;
          assert LastOfWeight(es, k + 1) && es[k + 1] == e;
        }
        if k :| LastOfWeight(es, k) && es[k] == e {
          if k > 0 {
            assert LastOfWeight(t, k - 1) && t[k - 1] == e;
          }
        }
      }
      if head != [] {
        forall j | 0 <= j < |Survivors(t)| ensures Survivors(t)[j].weight != es[0].weight {
          var e := Survivors(t)[j];
          assert e in Survivors(t);
          var k :| LastOfWeight(t, k) && t[k] == e;
        }
      }
    }
  }

  lemma {:induction false} InsertSpec(e: Edge, es: seq<Edge>)
    requires StrictlyDescending(es)
    requires forall x :: x in es ==> x.weight != e.weight
    ensures StrictlyDescending(Insert(e, es))
    ensures forall x :: x in Insert(e, es) <==> x == e || x in es
  {
    if es == [] || e.weight > es[0].weight {
      forall x | x in es ensures x.weight < e.weight {
        var j :| 0 <= j < |es| && es[j] == x;
      }
      ConsDescending(e, es);
    } else {
      var t := Insert(e, es[1..]);
      assert StrictlyDescending(es[1..]);
      InsertSpec(e, es[1..]);
      assert forall x :: x in es <==> x == es[0] || x in es[1..];
      forall x | x in t ensures x.weight < es[0].weight {
        if x != e {
          var j :| 0 <= j < |es[1..]| && es[1..][j] == x;
          assert es[j + 1] == x;
        }
      }
      ConsDescending(es[0], t);
    }
  }

  /** An edge heavier than every edge of a descending list can go in front of it. */
  lemma ConsDescending(x: Edge, t: seq<Edge>)
    requires StrictlyDescending(t) && forall y :: y in t ==> y.weight < x.weight
    ensures StrictlyDescending([x] + t)
    ensures forall y :: y in [x] + t <==> y == x || y in t
  {
    var r := [x] + t;
    assert forall i :: 1 <= i < |r| ==> r[i] == t[i - 1] && t[i - 1] in t;
  }

  lemma {:induction false} SortSpec(es: seq<Edge>)
    requires forall i, j :: 0 <= i < j < |es| ==> es[i].weight != es[j].weight
    ensures StrictlyDescending(SortDescending(es))
    ensures forall x :: x in SortDescending(es) <==> x in es
  {
    if es != [] {
      var t := es[1..];
      assert forall i, j :: 0 <= i < j < |t| ==> t[i].weight != t[j].weight by {
        assert forall i :: 0 <= i < |t| ==> t[i] == es[i + 1];
      }
      SortSpec(t);
      forall x | x in SortDescending(t) ensures x.weight != es[0].weight {
        var j :| 0 <= j < |t| && t[j] == x;
        assert es[j + 1] == x;
      }
      InsertSpec(es[0], SortDescending(t));
      assert forall x :: x in es <==> x == es[0] || x in t;
    }
  }

  /**
   * The recursion order: strictly descending weights, and exactly the edges
   * that are the last of their weight in the edge list, so that of several
   * neighbours with one weight only the last inserted is recursed into.
   */
  lemma FlippedOrder(es: seq<Edge>)
    ensures StrictlyDescending(Flipped(es))
    ensures forall e :: e in Flipped(es) <==> exists k :: LastOfWeight(es, k) && es[k] == e
  {
    SurvivorsSpec(es);
    SortSpec(Survivors(es));
  }

  /**
   * Two neighbours at one weight: only the one connected last is recursed
   * into, whatever lies behind the other.
   */
  lemma FlippedTie(b: Id, c: Id, w: Weight)
    ensures Flipped([Edge(b, w), Edge(c, w)]) == [Edge(c, w)]
  {
    var es := [Edge(b, w), Edge(c, w)];
    assert es[1..] == [Edge(c, w)] && es[1..][1..] == [];
    assert WeightOccurs(es[1..], w) by {
      assert es[1..][0].weight == w;
    }
    assert !WeightOccurs(es[1..][1..], w);
    assert Survivors(es[1..]) == [Edge(c, w)];
    assert Survivors(es) == [Edge(c, w)];
    assert SortDescending([Edge(c, w)]) == Insert(Edge(c, w), []) by {
      assert [Edge(c, w)][1..] == [];
    }
  }
}
