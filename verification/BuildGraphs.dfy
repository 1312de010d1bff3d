/** Directed graphs as networkx keeps them: reachability, ancestor closure and Kahn's topological sort. */
module BuildGraphs {
  import opened Seqs

  /** `attrs` lacks the nodes that `add_edge` created and no `add_node` has filled in yet. */
  datatype Graph<A> = Graph(nodes: set<string>, edges: set<(string, string)>, attrs: map<string, A>)

  function AddNode<A>(g: Graph<A>, n: string, a: A): Graph<A> {
    g.(nodes := g.nodes + {n}, attrs := g.attrs[n := a])
  }

  function AddEdge<A>(g: Graph<A>, u: string, v: string): Graph<A> {
    g.(nodes := g.nodes + {u, v}, edges := g.edges + {(u, v)})
  }

  /** `g.subgraph(keep).copy()`. */
  function Subgraph<A>(g: Graph<A>, keep: set<string>): Graph<A> {
    Graph(g.nodes * keep,
          set e | e in g.edges && e.0 in keep && e.1 in keep,
          map n | n in g.attrs && n in keep :: g.attrs[n])
  }

  ghost predicate WellFormed<A>(g: Graph<A>) {
    forall e :: e in g.edges ==> e.0 in g.nodes && e.1 in g.nodes
  }

  ghost predicate Path<A>(g: Graph<A>, p: seq<string>) {
    p != [] && forall i :: 0 <= i < |p| - 1 ==> (p[i], p[i + 1]) in g.edges
  }

  ghost predicate PathBetween<A>(g: Graph<A>, p: seq<string>, u: string, v: string) {
    Path(g, p) && p[0] == u && p[|p| - 1] == v
  }

  ghost predicate Reaches<A>(g: Graph<A>, u: string, v: string) {
    exists p :: PathBetween(g, p, u, v)
  }

  ghost predicate HasCycle<A>(g: Graph<A>) {
    exists p, u :: |p| > 1 && PathBetween(g, p, u, u)
  }

  /** Every predecessor of a member is a member. */
  ghost predicate AncestorClosed<A>(g: Graph<A>, s: set<string>) {
    forall e :: e in g.edges && e.1 in s ==> e.0 in s
  }

  /** The targets and everything from which one of them can be reached. */
  ghost function WithAncestors<A>(g: Graph<A>, targets: set<string>): set<string> {
    set n | n in g.nodes && exists t :: t in targets && Reaches(g, n, t)
  }

  lemma {:induction false} ReachesSelf<A>(g: Graph<A>, n: string)
    ensures Reaches(g, n, n)
  {
    assert PathBetween(g, [n], n, n);
  }

  lemma {:induction false} ReachesStep<A>(g: Graph<A>, u: string, v: string, t: string)
    requires (u, v) in g.edges && Reaches(g, v, t)
    ensures Reaches(g, u, t)
  {
    var p :| PathBetween(g, p, v, t);
    assert PathBetween(g, [u] + p, u, t);
  }

  lemma {:induction false} ReachesOn<A>(g: Graph<A>, u: string, v: string, t: string)
    requires Reaches(g, u, v) && (v, t) in g.edges
    ensures Reaches(g, u, t)
  {
    var p :| PathBetween(g, p, u, v);
    assert PathBetween(g, p + [t], u, t);
  }

  lemma {:induction false} ClosedHoldsPath<A>(g: Graph<A>, s: set<string>, p: seq<string>)
    requires AncestorClosed(g, s) && Path(g, p) && p[|p| - 1] in s
    ensures p[0] in s
  {
    if |p| > 1 {
      ClosedHoldsPath(g, s, p[1..]);
      assert (p[0], p[1]) in g.edges;
    }
  }

  /** `WithAncestors` is the least ancestor-closed set holding the targets. */
  lemma {:induction false} WithAncestorsIsLeast<A>(g: Graph<A>, targets: set<string>, s: set<string>)
    requires WellFormed(g) && targets <= g.nodes
    ensures targets <= WithAncestors(g, targets) && AncestorClosed(g, WithAncestors(g, targets))
    ensures AncestorClosed(g, s) && targets <= s ==> WithAncestors(g, targets) <= s
  {
    forall t | t in targets ensures t in WithAncestors(g, targets) {
      ReachesSelf(g, t);
    }
    forall e | e in g.edges && e.1 in WithAncestors(g, targets) ensures e.0 in WithAncestors(g, targets) {
      var t :| t in targets && Reaches(g, e.1, t);
      ReachesStep(g, e.0, e.1, t);
    }
    if AncestorClosed(g, s) && targets <= s {
      forall n | n in WithAncestors(g, targets) ensures n in s {
        var t :| t in targets && Reaches(g, n, t);
        var p :| PathBetween(g, p, n, t);
        ClosedHoldsPath(g, s, p);
      }
    }
  }

  function Parents<A>(g: Graph<A>, n: string): set<string> {
    set u | u in g.nodes && (u, n) in g.edges
  }

  /** Everything `seen` reaches `n`, and predecessors of what has left the `frontier` were seen. */
  ghost predicate Searching<A>(g: Graph<A>, n: string, seen: set<string>, frontier: set<string>) {
    && n in seen && frontier <= seen <= g.nodes
    && (forall m :: m in seen ==> Reaches(g, m, n))
    && (forall e :: e in g.edges && e.1 in seen && e.1 !in frontier ==> e.0 in seen)
  }

  lemma {:induction false} SearchStep<A>(g: Graph<A>, n: string, seen: set<string>, frontier: set<string>, m: string)
    requires WellFormed(g) && Searching(g, n, seen, frontier) && m in frontier
    ensures Searching(g, n, seen + Parents(g, m), frontier - {m} + (Parents(g, m) - seen))
  {
    forall u | u in Parents(g, m) ensures u in g.nodes && Reaches(g, u, n) {
      assert (u, m) in g.edges;
      ReachesStep(g, u, m, n);
    }
  }

  lemma {:induction false} SearchDone<A>(g: Graph<A>, n: string, seen: set<string>)
    requires WellFormed(g) && n in g.nodes && Searching(g, n, seen, {})
    ensures seen == WithAncestors(g, {n})
  {
    WithAncestorsIsLeast(g, {n}, seen);
  }

  lemma {:induction false} SearchShrinks(seen: set<string>, parents: set<string>, nodes: set<string>,
                                         frontier: set<string>, m: string)
    requires seen + parents <= nodes && m in frontier
    ensures |seen| <= |seen + parents| <= |nodes|
    ensures |seen| == |seen + parents| ==> |frontier - {m} + (parents - seen)| < |frontier|
  {
    SubsetSize(seen + parents, nodes);
    SubsetSize(seen, seen + parents);
    var found := parents - seen;
    assert seen + parents == seen + found;
    if |seen| == |seen + parents| {
      assert found == {};
      assert frontier - {m} + found == frontier - {m};
    }
  }

  /** `networkx.ancestors`: a backward search from `n`, which is not its own ancestor. */
  method Ancestors<A>(g: Graph<A>, n: string) returns (r: set<string>)
    requires WellFormed(g) && n in g.nodes
    ensures r == WithAncestors(g, {n}) - {n}
  {
    var seen, frontier := {n}, {n};
    ReachesSelf(g, n);
    while frontier != {}
      invariant Searching(g, n, seen, frontier)
      decreases |g.nodes| - |seen|, |frontier|
    {
      var m :| m in frontier;
      var parents := Parents(g, m);
      SearchStep(g, n, seen, frontier, m);
      SearchShrinks(seen, parents, g.nodes, frontier, m);
      seen, frontier := seen + parents, frontier - {m} + (parents - seen);
    }
    SearchDone(g, n, seen);
    r := seen - {n};
  }

  // ----- Topological order -----

  /** Nodes of `g` without repeats, each after all its predecessors. */
  ghost predicate Ordered<A>(g: Graph<A>, order: seq<string>) {
    && NoDups(order)
    && (forall i :: 0 <= i < |order| ==> order[i] in g.nodes)
    && (forall i :: 0 <= i < |order| ==> Parents(g, order[i]) <= Elements(order[..i]))
  }

  lemma {:induction false} OrderedPrefix<A>(g: Graph<A>, order: seq<string>, k: nat)
    requires WellFormed(g) && Ordered(g, order) && k <= |order|
    ensures Ordered(g, order[..k]) && AncestorClosed(g, Elements(order[..k]))
  {
    forall i | 0 <= i < k ensures order[..k][..i] == order[..i] {}
    forall e | e in g.edges && e.1 in Elements(order[..k]) ensures e.0 in Elements(order[..k]) {
      var i :| 0 <= i < k && order[i] == e.1;
      assert e.0 in Parents(g, order[i]);
      assert e.0 in order[..i];
    }
  }

  /** Along a path the positions in the order strictly increase. */
  lemma {:induction false} PathClimbs<A>(g: Graph<A>, order: seq<string>, p: seq<string>, last: nat)
    requires WellFormed(g) && Ordered(g, order) && Path(g, p) && last < |order| && order[last] == p[|p| - 1]
    ensures exists first :: 0 <= first && first + |p| - 1 <= last && order[first] == p[0]
  {
    if |p| > 1 {
      var q := p[..|p| - 1];
      var u := q[|q| - 1];
      assert (u, order[last]) in g.edges;
      assert u in Parents(g, order[last]);
      assert u in order[..last];
      var k :| 0 <= k < last && order[k] == u;
      PathClimbs(g, order, q, k);
    }
  }

  lemma {:induction false} OrderHasNoCycle<A>(g: Graph<A>, order: seq<string>, p: seq<string>, u: string)
    requires WellFormed(g) && Ordered(g, order) && Elements(order) == g.nodes
    requires |p| > 1
    ensures !PathBetween(g, p, u, u)
  {
    if PathBetween(g, p, u, u) {
      assert (p[0], p[1]) in g.edges;
      assert u in Elements(order);
      var last :| 0 <= last < |order| && order[last] == u;
      PathClimbs(g, order, p, last);
      assert false;
    }
  }

  ghost predicate HasParentIn<A>(g: Graph<A>, s: set<string>, v: string) {
    exists u :: u in s && (u, v) in g.edges
  }

  ghost predicate AllHaveParents<A>(g: Graph<A>, s: set<string>) {
    forall v {:trigger HasParentIn(g, s, v)} :: v in s ==> HasParentIn(g, s, v)
  }

  lemma {:induction false} Revisit<A>(g: Graph<A>, p: seq<string>, u: string)
    requires Path(g, p) && (u, p[0]) in g.edges && u in p
    ensures HasCycle(g)
  {
    var k :| 0 <= k < |p| && p[k] == u;
    assert PathBetween(g, [u] + p[..k + 1], u, u);
  }

  lemma {:induction false} Extend<A>(g: Graph<A>, stuck: set<string>, p: seq<string>, u: string)
    requires Path(g, p) && NoDups(p) && Elements(p) <= stuck
    requires u in stuck && u !in p && (u, p[0]) in g.edges
    ensures Path(g, [u] + p) && NoDups([u] + p) && Elements([u] + p) <= stuck
    ensures |p| < |stuck|
  {
    DistinctCount([u] + p);
    SubsetSize(Elements([u] + p), stuck);
  }

  /** In a finite set whose members all have predecessors in the set, walking back must revisit a node. */
  lemma {:induction false} WalkBackCycles<A>(g: Graph<A>, stuck: set<string>, p: seq<string>)
    requires AllHaveParents(g, stuck)
    requires Path(g, p) && NoDups(p) && Elements(p) <= stuck
    ensures HasCycle(g)
    decreases |stuck| - |p|
  {
    assert p[0] in Elements(p) && HasParentIn(g, stuck, p[0]);
    var u :| u in stuck && (u, p[0]) in g.edges;
    if u in p {
      Revisit(g, p, u);
    } else {
      Extend(g, stuck, p, u);
      WalkBackCycles(g, stuck, [u] + p);
    }
  }

  lemma {:induction false} StuckCycle<A>(g: Graph<A>, stuck: set<string>, v: string)
    requires v in stuck && AllHaveParents(g, stuck)
    ensures HasCycle(g)
  {
    WalkBackCycles(g, stuck, [v]);
  }

  lemma {:induction false} SubsetSize<T>(a: set<T>, b: set<T>)
    requires a <= b
    ensures |a| <= |b|
  {
    assert b == a + (b - a);
  }

  // ----- Kahn's algorithm -----

  function Children<A>(g: Graph<A>, n: string): set<string> {
    set v | v in g.nodes && (n, v) in g.edges
  }

  /** The nodes yielded so far, those ready to be, and the count of missing predecessors of the rest. */
  datatype Kahn = Kahn(done: set<string>, ready: set<string>, indegree: map<string, int>)

  /**
   * A node waits missing as many predecessors as its `indegree` says; one still `pending` has not had
   * its count reduced for the node just yielded.
   */
  ghost predicate Tracked<A>(g: Graph<A>, k: Kahn, pending: set<string>, v: string) {
    if v in k.done then v !in k.ready && v !in k.indegree && Parents(g, v) <= k.done
    else if v in k.ready then v !in k.indegree && Parents(g, v) <= k.done
    else v in k.indegree && 0 < k.indegree[v] == |Parents(g, v) - k.done| + (if v in pending then 1 else 0)
  }

  ghost predicate Counting<A>(g: Graph<A>, k: Kahn, pending: set<string>) {
    && k.done <= g.nodes && k.ready <= g.nodes && k.indegree.Keys <= g.nodes && pending <= k.indegree.Keys
    && (forall v :: v in g.nodes ==> Tracked(g, k, pending, v))
  }

  lemma {:induction false} ChildIsWaiting<A>(g: Graph<A>, k: Kahn, n: string, v: string)
    requires WellFormed(g) && Counting(g, k, {}) && n in k.ready && v in Children(g, n)
    ensures v in k.indegree && k.indegree[v] == |Parents(g, v) - (k.done + {n})| + 1
  {
    assert (n, v) in g.edges;
    assert Tracked(g, k, {}, v) && Tracked(g, k, {}, n);
    assert n in Parents(g, v) - k.done;
    assert Parents(g, v) - (k.done + {n}) == Parents(g, v) - k.done - {n};
  }

  lemma {:induction false} OtherIsTracked<A>(g: Graph<A>, k: Kahn, n: string, v: string)
    requires Counting(g, k, {}) && n in k.ready && v in g.nodes && v !in Children(g, n)
    ensures Tracked(g, Kahn(k.done + {n}, k.ready - {n}, k.indegree), Children(g, n), v)
  {
    assert Tracked(g, k, {}, v);
    assert n !in Parents(g, v);
    assert Parents(g, v) - (k.done + {n}) == Parents(g, v) - k.done;
  }

  /** Yielding a ready node leaves its children pending. */
  lemma {:induction false} Emit<A>(g: Graph<A>, k: Kahn, n: string)
    requires WellFormed(g) && Counting(g, k, {}) && n in k.ready
    ensures Counting(g, Kahn(k.done + {n}, k.ready - {n}, k.indegree), Children(g, n))
    ensures n in g.nodes && n !in k.done && Parents(g, n) <= k.done
  {
    assert Tracked(g, k, {}, n);
    var next := Kahn(k.done + {n}, k.ready - {n}, k.indegree);
    forall v | v in Children(g, n) ensures v in k.indegree {
      ChildIsWaiting(g, k, n, v);
    }
    forall v | v in g.nodes ensures Tracked(g, next, Children(g, n), v) {
      assert Tracked(g, k, {}, v);
      if v in Children(g, n) {
        ChildIsWaiting(g, k, n, v);
      } else {
        OtherIsTracked(g, k, n, v);
      }
    }
  }

  /** One pass of the inner loop: `indegree_map[child] -= 1`, and the child is ready at zero. */
  function Decrement(k: Kahn, c: string): Kahn
    requires c in k.indegree
  {
    if k.indegree[c] == 1 then k.(ready := k.ready + {c}, indegree := k.indegree - {c})
    else k.(indegree := k.indegree[c := k.indegree[c] - 1])
  }

  lemma {:induction false} DecrementTracked<A>(g: Graph<A>, k: Kahn, pending: set<string>, c: string, v: string)
    requires c in pending && c in k.indegree
    requires Tracked(g, k, pending, v) && Tracked(g, k, pending, c)
    ensures Tracked(g, Decrement(k, c), pending - {c}, v)
  {
    if v == c && k.indegree[c] == 1 && c !in k.done && c !in k.ready {
      EmptyDifference(Parents(g, c), k.done);
    }
  }

  lemma {:induction false} EmptyDifference(a: set<string>, b: set<string>)
    requires |a - b| == 0
    ensures a <= b
  {
    forall x | x in a ensures x in b {
      assert x !in a - b;
    }
  }

  lemma {:induction false} DecrementKeeps<A>(g: Graph<A>, k: Kahn, pending: set<string>, c: string)
    requires Counting(g, k, pending) && c in pending
    ensures Counting(g, Decrement(k, c), pending - {c})
  {
    forall v | v in g.nodes ensures Tracked(g, Decrement(k, c), pending - {c}, v) {
      assert Tracked(g, k, pending, v) && Tracked(g, k, pending, c);
      DecrementTracked(g, k, pending, c, v);
    }
  }

  ghost predicate CountingFrom<A>(g: Graph<A>, k: Kahn, pending: set<string>, done: set<string>) {
    Counting(g, k, pending) && k.done == done
  }

  lemma {:induction false} ReduceStep<A>(g: Graph<A>, k: Kahn, pending: set<string>, done: set<string>, c: string)
    requires CountingFrom(g, k, pending, done) && c in pending
    ensures c in k.indegree && CountingFrom(g, Decrement(k, c), pending - {c}, done)
  {
    DecrementKeeps(g, k, pending, c);
  }

  lemma {:induction false} StuckHaveParents<A>(g: Graph<A>, k: Kahn, v: string)
    requires WellFormed(g) && Counting(g, k, {}) && k.ready == {} && v in k.indegree
    ensures HasParentIn(g, k.indegree.Keys, v)
  {
    assert Tracked(g, k, {}, v);
    assert Parents(g, v) - k.done != {};
    var u :| u in Parents(g, v) - k.done;
    assert (u, v) in g.edges && Tracked(g, k, {}, u);
  }

  lemma {:induction false} AllYielded<A>(g: Graph<A>, k: Kahn, order: seq<string>)
    requires WellFormed(g) && Counting(g, k, {}) && k.ready == {} && k.indegree == map[]
    requires Ordered(g, order) && k.done == Elements(order)
    ensures !HasCycle(g) && k.done == g.nodes
  {
    forall v | v in g.nodes ensures v in k.done { assert Tracked(g, k, {}, v); }
    assert k.done == g.nodes;
    forall p, u | |p| > 1 ensures !PathBetween(g, p, u, u) { OrderHasNoCycle(g, order, p, u); }
  }

  lemma {:induction false} SomeStuck<A>(g: Graph<A>, k: Kahn, v: string)
    requires WellFormed(g) && Counting(g, k, {}) && k.ready == {} && v in k.indegree
    ensures HasCycle(g) && v in g.nodes && v !in k.done
  {
    assert Tracked(g, k, {}, v);
    var stuck := k.indegree.Keys;
    assert AllHaveParents(g, stuck) by {
      forall w {:trigger HasParentIn(g, stuck, w)} | w in stuck ensures HasParentIn(g, stuck, w) {
        StuckHaveParents(g, k, w);
      }
    }
    StuckCycle(g, stuck, v);
  }

  lemma {:induction false} Exhausted<A>(g: Graph<A>, k: Kahn, order: seq<string>)
    requires WellFormed(g) && Counting(g, k, {}) && k.ready == {}
    requires Ordered(g, order) && k.done == Elements(order)
    ensures k.indegree == map[] <==> !HasCycle(g)
    ensures k.indegree == map[] <==> k.done == g.nodes
  {
    if k.indegree == map[] {
      AllYielded(g, k, order);
    } else {
      var v :| v in k.indegree;
      SomeStuck(g, k, v);
    }
  }

  lemma {:induction false} OrderedSnoc<A>(g: Graph<A>, order: seq<string>, n: string)
    requires Ordered(g, order) && n in g.nodes && n !in Elements(order) && Parents(g, n) <= Elements(order)
    ensures Ordered(g, order + [n]) && Elements(order + [n]) == Elements(order) + {n}
    ensures |order| < |g.nodes|
  {
    var next := order + [n];
    forall i | 0 <= i < |next| ensures Parents(g, next[i]) <= Elements(next[..i]) {
      assert next[..i] == if i < |order| then order[..i] else order;
    }
    DistinctCount(next);
    SubsetSize(Elements(next), g.nodes);
  }

  function Start<A>(g: Graph<A>): Kahn {
    Kahn({}, set v | v in g.nodes && Parents(g, v) == {},
         map v | v in g.nodes && Parents(g, v) != {} :: |Parents(g, v)|)
  }

  lemma {:induction false} StartCounts<A>(g: Graph<A>)
    ensures Counting(g, Start(g), {})
  {
    forall v | v in g.nodes ensures Tracked(g, Start(g), {}, v) {
      assert Parents(g, v) - {} == Parents(g, v);
    }
  }

  /** The inner loop of `topological_sort`: every child of the node just yielded loses one count. */
  method ReduceChildren<A>(g: Graph<A>, start: Kahn, children: set<string>) returns (k: Kahn)
    requires Counting(g, start, children)
    ensures CountingFrom(g, k, {}, start.done)
  {
    k := start;
    var pending := children;
    while pending != {}
      invariant CountingFrom(g, k, pending, start.done)
      decreases |pending|
    {
      var c :| c in pending;
      ReduceStep(g, k, pending, start.done, c);
      k, pending := Decrement(k, c), pending - {c};
    }
  }

  /**
   * `networkx.topological_sort`: nodes are yielded as they become ready, and whatever then remains
   * makes it raise. It completes exactly on acyclic graphs; on any graph, every node it yields comes
   * after all its predecessors.
   */
  method TopologicalSort<A>(g: Graph<A>) returns (order: seq<string>, complete: bool)
    requires WellFormed(g)
    ensures Ordered(g, order)
    ensures complete <==> !HasCycle(g)
    ensures complete <==> Elements(order) == g.nodes
  {
    order := [];
    var k := Start(g);
    StartCounts(g);
    while k.ready != {}
      invariant Ordered(g, order) && k.done == Elements(order)
      invariant Counting(g, k, {})
      decreases |g.nodes| - |order|
    {
      var n :| n in k.ready;
      Emit(g, k, n);
      OrderedSnoc(g, order, n);
      order := order + [n];
      k := ReduceChildren(g, Kahn(k.done + {n}, k.ready - {n}, k.indegree), Children(g, n));
    }
    Exhausted(g, k, order);
    complete := k.indegree == map[];
  }
}
