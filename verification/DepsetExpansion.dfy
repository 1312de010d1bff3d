/** `get_expanded_depset_requirements`: a recursion that extends one shared list. */
module DepsetExpansion {
  import opened Seqs
  import opened BuildGraphs
  import opened Depsets

  /** Every depset that the expand node `name` builds on exists and comes earlier. */
  ghost predicate GroundedAt(config: seq<Depset>, before: seq<string>, name: string) {
    var d := GetDepset(config, name);
    d.Some? && d.value.operation.Expand? ==> Ready(config, before, d.value.depsets)
  }

  ghost predicate Ready(config: seq<Depset>, before: seq<string>, deps: seq<string>) {
    forall r :: r in deps ==> r in before && GetDepset(config, r).Some?
  }

  ghost predicate Grounded(config: seq<Depset>, order: seq<string>) {
    forall i :: 0 <= i < |order| ==> GroundedAt(config, order[..i], order[i])
  }

  lemma {:induction false} GroundedPrefix(config: seq<Depset>, order: seq<string>, k: nat)
    requires Grounded(config, order) && k <= |order|
    ensures Grounded(config, order[..k])
  {
    forall i | 0 <= i < k ensures GroundedAt(config, order[..k][..i], order[..k][i]) {
      assert order[..k][..i] == order[..i];
    }
  }

  ghost function IndexOf(order: seq<string>, name: string): (i: nat)
    requires name in order
    ensures i < |order| && order[i] == name
  {
    var i :| 0 <= i < |order| && order[i] == name;
    i
  }

  /** What the recursion appends for `name`. */
  ghost function ExpandedList(config: seq<Depset>, order: seq<string>, name: string): seq<string>
    requires Grounded(config, order) && Ready(config, order, [name])
    decreases |order|, 0
  {
    var i := IndexOf(order, name);
    var d := GetDepset(config, name).value;
    assert name in [name];
    if d.operation.Expand? then
      GroundedPrefix(config, order, i);
      assert GroundedAt(config, order[..i], order[i]);
      d.requirements + ExpandedDeps(config, order[..i], d.depsets)
    else d.requirements
  }

  ghost function ExpandedDeps(config: seq<Depset>, order: seq<string>, deps: seq<string>): seq<string>
    requires Grounded(config, order) && Ready(config, order, deps)
    decreases |order|, |deps| + 1
  {
    if deps == [] then []
    else ExpandedDeps(config, order, deps[..|deps| - 1]) + ExpandedList(config, order, deps[|deps| - 1])
  }

  /** The list object that the source passes down its recursion. */
  class RequirementList {
    var items: seq<string>

    constructor ()
      ensures items == []
    {
      items := [];
    }
  }

  /**
   * The source drops the value of the inner calls and relies on the shared list. The result stands for
   * `list(set(...))`, whose order Python leaves open. On an order in which dependencies come first the
   * recursion terminates.
   */
  method GetExpandedDepsetRequirements(config: seq<Depset>, name: string, acc: RequirementList,
                                       ghost order: seq<string>)
    returns (result: set<string>)
    requires Grounded(config, order) && Ready(config, order, [name])
    modifies acc
    ensures acc.items == old(acc.items) + ExpandedList(config, order, name)
    ensures result == Elements(acc.items)
    decreases |order|, 0
  {
    assert name in [name];
    var d := GetDepset(config, name).value;
    acc.items := acc.items + d.requirements;
    if d.operation.Expand? {
      ghost var i := IndexOf(order, name);
      GroundedPrefix(config, order, i);
      assert GroundedAt(config, order[..i], order[i]);
      ExpandEach(config, d.depsets, acc, order[..i]);
    }
    result := Elements(acc.items);
  }

  lemma {:induction false} ReadyParts(config: seq<Depset>, order: seq<string>, deps: seq<string>, k: nat)
    requires Ready(config, order, deps) && k < |deps|
    ensures Ready(config, order, deps[..k]) && Ready(config, order, deps[..k + 1]) && Ready(config, order, [deps[k]])
    ensures Grounded(config, order) ==>
              ExpandedDeps(config, order, deps[..k + 1])
              == ExpandedDeps(config, order, deps[..k]) + ExpandedList(config, order, deps[k])
  {
    assert deps[..k + 1][..k] == deps[..k];
  }

  /** The loop over `depset.depsets`. */
  method ExpandEach(config: seq<Depset>, deps: seq<string>, acc: RequirementList, ghost order: seq<string>)
    requires Grounded(config, order) && Ready(config, order, deps)
    modifies acc
    ensures acc.items == old(acc.items) + ExpandedDeps(config, order, deps)
    decreases |order|, 1
  {
    for k := 0 to |deps|
      invariant Ready(config, order, deps[..k])
      invariant acc.items == old(acc.items) + ExpandedDeps(config, order, deps[..k])
    {
      ReadyParts(config, order, deps, k);
      var _ := GetExpandedDepsetRequirements(config, deps[k], acc, order);
    }
    assert deps[..|deps|] == deps;
  }

  // ----- What the list holds, as a set -----

  ghost predicate ExpandStep(config: seq<Depset>, u: string, v: string) {
    var d := GetDepset(config, u);
    d.Some? && d.value.operation.Expand? && v in d.value.depsets
  }

  ghost predicate ExpandPath(config: seq<Depset>, p: seq<string>) {
    p != [] && forall i :: 0 <= i < |p| - 1 ==> ExpandStep(config, p[i], p[i + 1])
  }

  /** `p` leads from `name` through expand nodes to a depset that requires `r`. */
  ghost predicate Supplies(config: seq<Depset>, p: seq<string>, name: string, r: string) {
    && ExpandPath(config, p) && p[0] == name
    && var d := GetDepset(config, p[|p| - 1]);
       d.Some? && r in d.value.requirements
  }

  /** The expansion of `dep` lists `r`. */
  ghost predicate Yields(config: seq<Depset>, order: seq<string>, dep: string, r: string) {
    Grounded(config, order) && Ready(config, order, [dep]) && r in ExpandedList(config, order, dep)
  }

  ghost predicate SomeYields(config: seq<Depset>, order: seq<string>, deps: seq<string>, r: string) {
    exists k :: 0 <= k < |deps| && Yields(config, order, deps[k], r)
  }

  lemma {:induction false} YieldsSnoc(config: seq<Depset>, order: seq<string>, deps: seq<string>, dep: string,
                                      r: string)
    ensures SomeYields(config, order, deps + [dep], r)
       <==> SomeYields(config, order, deps, r) || Yields(config, order, dep, r)
  {
    var all := deps + [dep];
    if k :| 0 <= k < |deps| && Yields(config, order, deps[k], r) {
      assert all[k] == deps[k];
    } else if Yields(config, order, dep, r) {
      assert all[|deps|] == dep;
    }
  }

  lemma {:induction false} DepsMembers(config: seq<Depset>, order: seq<string>, deps: seq<string>, r: string)
    requires Grounded(config, order) && Ready(config, order, deps)
    ensures r in ExpandedDeps(config, order, deps) <==> SomeYields(config, order, deps, r)
  {
    if deps != [] {
      var init, dep := deps[..|deps| - 1], deps[|deps| - 1];
      assert deps == init + [dep];
      DepsMembers(config, order, init, r);
      YieldsSnoc(config, order, init, dep, r);
    }
  }

  /** What is listed beyond a depset's own requirements comes from one it expands. */
  lemma {:induction false} ListedThrough(config: seq<Depset>, order: seq<string>, name: string, r: string)
    returns (i: nat, dep: string)
    requires Yields(config, order, name, r)
    ensures GetDepset(config, name).Some?
    ensures r !in GetDepset(config, name).value.requirements ==>
              i < |order| && ExpandStep(config, name, dep) && Yields(config, order[..i], dep, r)
  {
    assert name in [name];
    var d := GetDepset(config, name).value;
    i, dep := IndexOf(order, name), name;
    if r !in d.requirements {
      GroundedPrefix(config, order, i);
      assert GroundedAt(config, order[..i], order[i]);
      DepsMembers(config, order[..i], d.depsets, r);
      var k :| 0 <= k < |d.depsets| && Yields(config, order[..i], d.depsets[k], r);
      dep := d.depsets[k];
    }
  }

  lemma {:induction false} PathCons(config: seq<Depset>, name: string, q: seq<string>, dep: string, r: string)
    requires ExpandStep(config, name, dep) && Supplies(config, q, dep, r)
    ensures Supplies(config, [name] + q, name, r)
  {
    var p := [name] + q;
    forall i | 0 <= i < |p| - 1 ensures ExpandStep(config, p[i], p[i + 1]) {
      if i > 0 { assert p[i] == q[i - 1] && p[i + 1] == q[i - 1 + 1]; }
    }
  }

  lemma {:induction false} ListHasPath(config: seq<Depset>, order: seq<string>, name: string, r: string)
    returns (p: seq<string>)
    requires Yields(config, order, name, r)
    ensures Supplies(config, p, name, r)
    decreases |order|
  {
    var i, dep := ListedThrough(config, order, name, r);
    p := [name];
    if r !in GetDepset(config, name).value.requirements {
      var q := ListHasPath(config, order[..i], dep, r);
      p := [name] + q;
      PathCons(config, name, q, dep, r);
    }
  }

  lemma {:induction false} PathInList(config: seq<Depset>, order: seq<string>, name: string, r: string, p: seq<string>)
    requires Grounded(config, order) && Ready(config, order, [name])
    requires Supplies(config, p, name, r)
    ensures r in ExpandedList(config, order, name)
    decreases |p|
  {
    if |p| > 1 {
      assert ExpandStep(config, p[0], p[1]);
      var d := GetDepset(config, name).value;
      var i := IndexOf(order, name);
      GroundedPrefix(config, order, i);
      assert GroundedAt(config, order[..i], order[i]);
      assert Supplies(config, p[1..], p[1], r) by {
        forall k | 0 <= k < |p[1..]| - 1 ensures ExpandStep(config, p[1..][k], p[1..][k + 1]) {
          assert ExpandStep(config, p[k + 1], p[k + 2]);
        }
      }
      PathInList(config, order[..i], p[1], r, p[1..]);
      var k :| 0 <= k < |d.depsets| && d.depsets[k] == p[1];
      assert Yields(config, order[..i], d.depsets[k], r);
      DepsMembers(config, order[..i], d.depsets, r);
    }
  }

  function RequirementsOf(d: Depset): seq<string> { d.requirements }

  /** All requirements of depsets reachable from `name` through expand nodes. */
  ghost function ExpandedRequirements(config: seq<Depset>, name: string): set<string> {
    set r | r in Concat(Map(RequirementsOf, config)) && exists p :: Supplies(config, p, name, r)
  }

  /** Despite revisits on shared dependencies, the list holds exactly the reachable requirements. */
  lemma {:induction false} ExpansionIsReachable(config: seq<Depset>, order: seq<string>, name: string)
    requires Grounded(config, order) && Ready(config, order, [name])
    ensures Elements(ExpandedList(config, order, name)) == ExpandedRequirements(config, name)
  {
    var list := ExpandedList(config, order, name);
    forall r | r in list ensures r in ExpandedRequirements(config, name) {
      var p := ListHasPath(config, order, name, r);
      var d := GetDepset(config, p[|p| - 1]).value;
      var k :| 0 <= k < |config| && config[k] == d;
      assert r in Map(RequirementsOf, config)[k];
      ConcatMembers(Map(RequirementsOf, config), r);
    }
    forall r | r in ExpandedRequirements(config, name) ensures r in list {
      var p :| Supplies(config, p, name, r);
      PathInList(config, order, name, r, p);
    }
  }

  // ----- Orders that come from the build graph -----

  /** `g` is the whole build graph or an ancestor-closed part of it. */
  ghost predicate Covers(g: DepGraph, config: seq<Depset>) {
    && WellFormed(g)
    && forall u, v :: v in g.nodes && (u, v) in Built(config).edges ==> (u, v) in g.edges
  }

  lemma {:induction false} BuiltCovers(config: seq<Depset>)
    requires AllResolvable(config)
    ensures Covers(Built(config), config)
  {
    NoPlaceholders(config);
  }

  lemma {:induction false} SubgraphCovers(g: DepGraph, config: seq<Depset>, targets: set<string>)
    requires Covers(g, config) && targets <= g.nodes
    ensures Covers(Subgraph(g, WithAncestors(g, targets)), config)
  {
    WithAncestorsIsLeast(g, targets, {});
  }

  /**
   * On any graph the checks let through, cyclic or not, the nodes a topological sort yields are grounded:
   * whatever they expand was yielded before.
   */
  lemma {:induction false} OrderIsGrounded(g: DepGraph, config: seq<Depset>, order: seq<string>)
    requires AllResolvable(config) && Covers(g, config) && Ordered(g, order)
    ensures Grounded(config, order)
    ensures forall i, d, r :: 0 <= i < |order| && d in config && d.name == order[i] && r in References(d) ==>
              r in order[..i]
  {
    forall i, d, r | 0 <= i < |order| && d in config && d.name == order[i] && r in References(d)
      ensures r in order[..i]
    {
      BuiltFacts(config, r, d.name);
      assert Asks(d, r);
      assert (r, order[i]) in g.edges;
      assert r in Parents(g, order[i]);
      assert r in Elements(order[..i]);
    }
    forall i | 0 <= i < |order| ensures GroundedAt(config, order[..i], order[i]) {
      var d := GetDepset(config, order[i]);
      if d.Some? && d.value.operation.Expand? {
        forall r | r in d.value.depsets ensures r in order[..i] && GetDepset(config, r).Some? {
          assert r in References(d.value);
          assert Resolvable(d.value, Names(config));
          NamesFacts(config, r);
        }
      }
    }
  }
}
