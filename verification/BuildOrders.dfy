/** Topological orders of one graph compared: completing them, and moving a node that nothing follows. */
module BuildOrders {
  import opened Seqs
  import opened BuildGraphs

  /** One of the two nodes always comes before the other. */
  ghost predicate Comparable<A>(g: Graph<A>, x: string, y: string) {
    Reaches(g, x, y) || Reaches(g, y, x)
  }

  lemma {:induction false} ReachesBefore<A>(g: Graph<A>, order: seq<string>, i: nat, j: nat)
    requires WellFormed(g) && Ordered(g, order) && i < |order| && j < |order| && i != j
    requires Reaches(g, order[i], order[j])
    ensures i < j
  {
    var p :| PathBetween(g, p, order[i], order[j]);
    PathClimbs(g, order, p, j);
    var first :| 0 <= first && first + |p| - 1 <= j && order[first] == p[0];
    assert order[first] == order[i];
  }

  lemma {:induction false} PositionOf(order: seq<string>, x: string) returns (i: nat)
    requires x in Elements(order)
    ensures i < |order| && order[i] == x
  {
    i :| 0 <= i < |order| && order[i] == x;
  }

  // ----- Completing an order -----

  /** Some missing node has all its predecessors, unless the graph has a cycle. */
  lemma {:induction false} NextNode<A>(g: Graph<A>, done: set<string>, within: set<string>) returns (n: string)
    requires !HasCycle(g) && AncestorClosed(g, within) && done <= within && done != within
    ensures n in within - done && Parents(g, n) <= done
  {
    var stuck := within - done;
    var v :| v in within && v !in done;
    if AllHaveParents(g, stuck) {
      StuckCycle(g, stuck, v);
      assert false;
    }
    n :| n in stuck && !HasParentIn(g, stuck, n);
    forall u | u in Parents(g, n) ensures u in done {
      assert (u, n) in g.edges;
    }
  }

  /** On an acyclic graph every order can be completed to any ancestor-closed set that holds it. */
  lemma {:induction false} CompleteOrder<A>(g: Graph<A>, order: seq<string>, within: set<string>)
    returns (more: seq<string>)
    requires !HasCycle(g) && Ordered(g, order)
    requires AncestorClosed(g, within) && within <= g.nodes && Elements(order) <= within
    ensures Ordered(g, order + more) && Elements(order + more) == within
    decreases |within - Elements(order)|
  {
    more := [];
    if Elements(order) == within {
      assert order + more == order;
    } else {
      var n := NextNode(g, Elements(order), within);
      OrderedSnoc(g, order, n);
      FewerMissing(within, Elements(order), n);
      var rest := CompleteOrder(g, order + [n], within);
      more := [n] + rest;
      AppendSnoc(order, n, rest);
    }
  }

  lemma {:induction false} FewerMissing(within: set<string>, done: set<string>, n: string)
    requires n in within - done
    ensures |within - (done + {n})| < |within - done|
  {
    assert within - (done + {n}) == within - done - {n};
  }

  lemma AppendSnoc(order: seq<string>, n: string, rest: seq<string>)
    ensures order + ([n] + rest) == order + [n] + rest
  {}

  lemma {:induction false} OrderExists<A>(g: Graph<A>, within: set<string>) returns (order: seq<string>)
    requires !HasCycle(g) && AncestorClosed(g, within) && within <= g.nodes
    ensures Ordered(g, order) && Elements(order) == within
  {
    order := CompleteOrder(g, [], within);
    assert [] + order == order;
  }

  lemma {:induction false} FullOrderAcyclic<A>(g: Graph<A>, order: seq<string>)
    requires WellFormed(g) && Ordered(g, order) && Elements(order) == g.nodes
    ensures !HasCycle(g)
  {
    forall p, u | |p| > 1 ensures !PathBetween(g, p, u, u) { OrderHasNoCycle(g, order, p, u); }
  }

  lemma {:induction false} OrderedPart<A>(g: Graph<A>, keep: set<string>, order: seq<string>)
    requires WellFormed(g) && AncestorClosed(g, keep) && keep <= g.nodes && Ordered(Subgraph(g, keep), order)
    ensures Ordered(g, order)
  {
    forall i | 0 <= i < |order| ensures Parents(g, order[i]) <= Elements(order[..i]) {
      forall u | u in Parents(g, order[i]) ensures u in Elements(order[..i]) {
        assert (u, order[i]) in g.edges && order[i] in keep;
        assert u in Parents(Subgraph(g, keep), order[i]);
      }
    }
  }

  // ----- Moving the last node of one order to the end of another -----

  /** A node that ends one order precedes nothing in another: what follows it there is not comparable. */
  lemma {:induction false} FollowersIncomparable<A>(g: Graph<A>, a: seq<string>, b: seq<string>, k: nat, j: nat)
    requires WellFormed(g) && Ordered(g, a) && Ordered(g, b) && Elements(a) == Elements(b) && a != []
    requires k < j < |b| && b[k] == a[|a| - 1]
    ensures !Comparable(g, b[k], b[j])
  {
    assert b[j] in Elements(b);
    var i := PositionOf(a, b[j]);
    assert b[j] != b[k];
    if Reaches(g, b[k], b[j]) {
      ReachesBefore(g, a, |a| - 1, i);
    }
    if Reaches(g, b[j], b[k]) {
      ReachesBefore(g, b, j, k);
    }
  }

  /** `order` without its k-th node. */
  function Without(order: seq<string>, k: nat): seq<string>
    requires k < |order|
  {
    order[..k] + order[k + 1..]
  }

  lemma {:induction false} WithoutElements(order: seq<string>, k: nat)
    requires k < |order| && NoDups(order)
    ensures NoDups(Without(order, k)) && Elements(Without(order, k)) == Elements(order) - {order[k]}
  {
    var rest := Without(order, k);
    forall x ensures x in rest <==> x in order && x != order[k] {
      if x in order && x != order[k] {
        var i :| 0 <= i < |order| && order[i] == x;
        assert i < k ==> rest[i] == x;
        assert i > k ==> rest[i - 1] == x;
      }
    }
  }

  lemma {:induction false} WithoutPrefix(order: seq<string>, k: nat, i: nat)
    requires k < |order| && i < |order| - 1 && NoDups(order)
    ensures Elements(Without(order, k)[..i]) == Elements(order[..if i < k then i else i + 1]) - {order[k]}
  {
    if i < k {
      assert Without(order, k)[..i] == order[..i];
      assert order[k] !in order[..i];
    } else {
      var head := order[..i + 1];
      assert Without(order, k)[..i] == Without(head, k);
      WithoutElements(head, k);
    }
  }

  lemma {:induction false} OrderedWithout<A>(g: Graph<A>, a: seq<string>, b: seq<string>, k: nat)
    requires WellFormed(g) && Ordered(g, a) && Ordered(g, b) && Elements(a) == Elements(b) && a != []
    requires k < |b| && b[k] == a[|a| - 1]
    ensures Ordered(g, Without(b, k)) && Elements(Without(b, k)) == Elements(a[..|a| - 1])
  {
    var rest := Without(b, k);
    WithoutElements(b, k);
    ElementsSnoc(a);
    forall i | 0 <= i < |rest| ensures rest[i] in g.nodes && Parents(g, rest[i]) <= Elements(rest[..i]) {
      var j := if i < k then i else i + 1;
      WithoutPrefix(b, k, i);
      assert rest[i] == b[j];
      if b[k] in Parents(g, b[j]) {
        NotAParent(g, a, b, k, j);
        assert false;
      }
    }
  }

  lemma {:induction false} NotAParent<A>(g: Graph<A>, a: seq<string>, b: seq<string>, k: nat, j: nat)
    requires WellFormed(g) && Ordered(g, a) && Ordered(g, b) && Elements(a) == Elements(b) && a != []
    requires k < |b| && j < |b| && k != j && b[k] == a[|a| - 1]
    ensures b[k] !in Parents(g, b[j])
  {
    if b[k] in Parents(g, b[j]) {
      assert (b[k], b[j]) in g.edges;
      ReachesSelf(g, b[j]);
      ReachesStep(g, b[k], b[j], b[j]);
      ReachesBefore(g, b, k, j);
      FollowersIncomparable(g, a, b, k, j);
      assert false;
    }
  }
}
