/** Dependency sets and the graph `DependencySetManager._build` makes of them (ray/ci/raydepsets/cli.py). */
module Depsets {
  import opened Seqs
  import opened BuildGraphs
  import opened Decimals

  datatype Operation = Compile | Subset | Expand | Relax | Unknown(text: string)

  /** `output` is `None` when the configuration gives no (or an empty) output path. */
  datatype Depset = Depset(
    name: string,
    operation: Operation,
    output: Option<string>,
    configName: string,
    constraints: seq<string>,
    requirements: seq<string>,
    packages: seq<string>,
    sourceDepset: Option<string>,
    depsets: seq<string>,
    preHooks: seq<string>,
    overrideFlags: seq<string>,
    appendFlags: seq<string>,
    includeSetuptools: bool)

  datatype NodeAttr = DepsetNode(depset: Depset) | HookNode(hook: string, config: string) {
    function ConfigName(): string {
      match this
      case DepsetNode(d) => d.configName
      case HookNode(_, c) => c
    }
  }

  type DepGraph = Graph<NodeAttr>

  const EMPTY: DepGraph := Graph({}, {}, map[])

  function NameOf(d: Depset): string { d.name }

  function Names(config: seq<Depset>): set<string> {
    Elements(Map(NameOf, config))
  }

  /** The depsets that `d` builds on. */
  function References(d: Depset): seq<string> {
    match d.operation
    case Subset => if d.sourceDepset.Some? then [d.sourceDepset.value] else []
    case Relax => if d.sourceDepset.Some? then [d.sourceDepset.value] else []
    case Expand => d.depsets
    case _ => []
  }

  /** The checks `_build` makes before it adds `d`. */
  predicate Resolvable(d: Depset, names: set<string>) {
    match d.operation
    case Compile => true
    case Subset => d.sourceDepset.Some? && d.sourceDepset.value in names
    case Relax => d.sourceDepset.Some? && d.sourceDepset.value in names
    case Expand => forall r :: r in d.depsets ==> r in names
    case Unknown(_) => false
  }

  function HookName(d: Depset, k: nat): string {
    d.name + "_pre_hook_" + Dec(k + 1)
  }

  function AddEdges(g: DepGraph, refs: seq<string>, n: string): DepGraph {
    if refs == [] then g
    else AddEdge(AddEdges(g, refs[..|refs| - 1], n), refs[|refs| - 1], n)
  }

  function AddHook(g: DepGraph, d: Depset, k: nat): DepGraph
    requires k < |d.preHooks|
  {
    AddEdge(AddNode(g, HookName(d, k), HookNode(d.preHooks[k], d.configName)), HookName(d, k), d.name)
  }

  function AddHooks(g: DepGraph, d: Depset, n: nat): DepGraph
    requires n <= |d.preHooks|
  {
    if n == 0 then g else AddHook(AddHooks(g, d, n - 1), d, n - 1)
  }

  function AddDepset(g: DepGraph, d: Depset): DepGraph {
    AddHooks(AddEdges(AddNode(g, d.name, DepsetNode(d)), References(d), d.name), d, |d.preHooks|)
  }

  function Built(config: seq<Depset>): DepGraph {
    if config == [] then EMPTY else AddDepset(Built(config[..|config| - 1]), config[|config| - 1])
  }

  // ----- What the graph is, without its construction -----

  ghost predicate IsHook(d: Depset, n: string) {
    exists k: nat :: k < |d.preHooks| && n == HookName(d, k)
  }

  /** `d` asks for the edge from `u` to itself. */
  ghost predicate Asks(d: Depset, u: string) {
    u in References(d) || IsHook(d, u)
  }

  ghost predicate IsEdge(config: seq<Depset>, u: string, v: string) {
    exists d :: d in config && d.name == v && Asks(d, u)
  }

  /** Names given to `add_node`. */
  ghost predicate IsAdded(config: seq<Depset>, n: string) {
    exists d :: d in config && (d.name == n || IsHook(d, n))
  }

  ghost predicate IsReferenced(config: seq<Depset>, n: string) {
    exists d :: d in config && n in References(d)
  }

  lemma {:induction false} AddEdgesFacts(g: DepGraph, refs: seq<string>, n: string, u: string, v: string)
    requires n in g.nodes
    ensures AddEdges(g, refs, n).attrs == g.attrs
    ensures u in AddEdges(g, refs, n).nodes <==> u in g.nodes || u in refs
    ensures (u, v) in AddEdges(g, refs, n).edges <==> (u, v) in g.edges || (v == n && u in refs)
  {
    if refs != [] {
      var init, r := refs[..|refs| - 1], refs[|refs| - 1];
      AddEdgesFacts(g, init, n, u, v);
      assert refs == init + [r];
    }
  }

  ghost predicate IsHookBelow(d: Depset, n: string, limit: nat) {
    exists k: nat :: k < limit && k < |d.preHooks| && n == HookName(d, k)
  }

  lemma HookBelowSnoc(d: Depset, n: string, limit: nat)
    requires limit < |d.preHooks|
    ensures IsHookBelow(d, n, limit + 1) <==> IsHookBelow(d, n, limit) || n == HookName(d, limit)
  {}

  lemma {:induction false} AddHooksFacts(g: DepGraph, d: Depset, limit: nat, u: string, v: string)
    requires limit <= |d.preHooks| && d.name in g.nodes
    ensures u in AddHooks(g, d, limit).nodes <==> u in g.nodes || IsHookBelow(d, u, limit)
    ensures u in AddHooks(g, d, limit).attrs <==> u in g.attrs || IsHookBelow(d, u, limit)
    ensures (u, v) in AddHooks(g, d, limit).edges
       <==> (u, v) in g.edges || (v == d.name && IsHookBelow(d, u, limit))
    ensures u in AddHooks(g, d, limit).attrs && !IsHookBelow(d, u, limit) ==>
              AddHooks(g, d, limit).attrs[u] == g.attrs[u]
    ensures IsHookBelow(d, u, limit) ==> AddHooks(g, d, limit).attrs[u].HookNode?
  {
    if limit > 0 {
      AddHooksFacts(g, d, limit - 1, u, v);
      AddHooksFacts(g, d, limit - 1, d.name, v);
      HookBelowSnoc(d, u, limit - 1);
    }
  }

  lemma {:induction false} AddDepsetFacts(g: DepGraph, d: Depset, u: string, v: string)
    ensures u in AddDepset(g, d).nodes <==> u in g.nodes || u == d.name || Asks(d, u)
    ensures u in AddDepset(g, d).attrs <==> u in g.attrs || u == d.name || IsHook(d, u)
    ensures (u, v) in AddDepset(g, d).edges <==> (u, v) in g.edges || (v == d.name && Asks(d, u))
    ensures IsHook(d, u) ==> AddDepset(g, d).attrs[u].HookNode?
    ensures !IsHook(d, u) && u == d.name ==> AddDepset(g, d).attrs[u] == DepsetNode(d)
    ensures !IsHook(d, u) && u != d.name && u in g.attrs ==> AddDepset(g, d).attrs[u] == g.attrs[u]
  {
    var g1 := AddNode(g, d.name, DepsetNode(d));
    var g2 := AddEdges(g1, References(d), d.name);
    AddEdgesFacts(g1, References(d), d.name, u, v);
    AddEdgesFacts(g1, References(d), d.name, d.name, v);
    AddHooksFacts(g2, d, |d.preHooks|, u, v);
    assert IsHookBelow(d, u, |d.preHooks|) <==> IsHook(d, u);
  }

  lemma {:induction false} MemberSnoc(config: seq<Depset>, d: Depset)
    requires config != []
    ensures d in config <==> d in config[..|config| - 1] || d == config[|config| - 1]
  {
    assert config == config[..|config| - 1] + [config[|config| - 1]];
  }

  /** Edges are exactly the declared references and hooks; attributes exactly the added nodes'. */
  lemma {:induction false} BuiltFacts(config: seq<Depset>, u: string, v: string)
    ensures (u, v) in Built(config).edges <==> IsEdge(config, u, v)
    ensures u in Built(config).attrs <==> IsAdded(config, u)
    ensures u in Built(config).nodes <==> IsAdded(config, u) || IsReferenced(config, u)
    ensures u in Built(config).attrs && Built(config).attrs[u].DepsetNode?
        ==> Built(config).attrs[u].depset in config && Built(config).attrs[u].depset.name == u
  {
    if config != [] {
      var init, d := config[..|config| - 1], config[|config| - 1];
      BuiltFacts(init, u, v);
      AddDepsetFacts(Built(init), d, u, v);
      forall e: Depset ensures e in config <==> e in init || e == d { MemberSnoc(config, e); }
    }
  }

  ghost predicate AllResolvable(config: seq<Depset>) {
    forall d :: d in config ==> Resolvable(d, Names(config))
  }

  lemma {:induction false} NamesFacts(config: seq<Depset>, n: string)
    ensures n in Names(config) <==> exists d :: d in config && d.name == n
  {
    if n in Names(config) {
      var i :| 0 <= i < |config| && Map(NameOf, config)[i] == n;
      assert config[i] in config && config[i].name == n;
    }
    if d :| d in config && d.name == n {
      var i :| 0 <= i < |config| && config[i] == d;
      assert Map(NameOf, config)[i] == n;
    }
  }

  /**
   * Although an edge to a depset declared later first creates a bare node, a configuration that
   * passes the checks leaves no node without attributes.
   */
  lemma {:induction false} NoPlaceholders(config: seq<Depset>)
    requires AllResolvable(config)
    ensures Built(config).nodes == Built(config).attrs.Keys && WellFormed(Built(config))
  {
    var g := Built(config);
    forall n ensures n in g.nodes <==> n in g.attrs {
      BuiltFacts(config, n, n);
      if IsReferenced(config, n) { ReferencedIsAdded(config, n); }
    }
    forall e | e in g.edges ensures e.0 in g.nodes && e.1 in g.nodes {
      EdgeEnds(config, e.0, e.1);
    }
  }

  lemma {:induction false} ReferencedIsAdded(config: seq<Depset>, n: string)
    requires AllResolvable(config) && IsReferenced(config, n)
    ensures IsAdded(config, n)
  {
    var d :| d in config && n in References(d);
    NamesFacts(config, n);
    var e :| e in config && e.name == n;
  }

  lemma {:induction false} EdgeEnds(config: seq<Depset>, u: string, v: string)
    requires (u, v) in Built(config).edges
    ensures u in Built(config).nodes && v in Built(config).nodes
  {
    BuiltFacts(config, u, v);
    BuiltFacts(config, v, v);
    var d :| d in config && d.name == v && Asks(d, u);
    assert IsAdded(config, u) || IsReferenced(config, u);
    assert IsAdded(config, v);
  }

  /** Depset names are distinct, and no hook happens to be named like a depset. */
  ghost predicate DistinctNodes(config: seq<Depset>) {
    && NoDups(Map(NameOf, config))
    && forall d, e :: d in config && e in config ==> !IsHook(e, d.name)
  }

  /** With distinct names, a depset's node carries that depset. */
  lemma {:induction false} NodeCarriesDepset(config: seq<Depset>, d: Depset)
    requires DistinctNodes(config) && d in config
    ensures d.name in Built(config).attrs && Built(config).attrs[d.name] == DepsetNode(d)
  {
    var init, last := config[..|config| - 1], config[|config| - 1];
    AddDepsetFacts(Built(init), last, d.name, d.name);
    assert last in config && !IsHook(last, d.name);
    if d != last {
      DistinctPrefix(config);
      MemberSnoc(config, d);
      NodeCarriesDepset(init, d);
      if d.name == last.name { SameName(config, d, last); }
    }
  }

  lemma {:induction false} DistinctPrefix(config: seq<Depset>)
    requires DistinctNodes(config) && config != []
    ensures DistinctNodes(config[..|config| - 1])
  {
    var init := config[..|config| - 1];
    assert Map(NameOf, config)[..|init|] == Map(NameOf, init);
    forall e | e in init ensures e in config { MemberSnoc(config, e); }
  }

  /** `_get_depset`: the first depset of that name. */
  function GetDepset(config: seq<Depset>, name: string): (r: Option<Depset>)
    ensures r.Some? ==> r.value in config && r.value.name == name
    ensures r.None? ==> forall d :: d in config ==> d.name != name
  {
    if config == [] then None
    else if config[0].name == name then Some(config[0])
    else GetDepset(config[1..], name)
  }

  lemma {:induction false} SameName(config: seq<Depset>, d: Depset, e: Depset)
    requires NoDups(Map(NameOf, config)) && d in config && e in config && d.name == e.name
    ensures d == e
  {
    var names := Map(NameOf, config);
    var i :| 0 <= i < |config| && config[i] == d;
    var j :| 0 <= j < |config| && config[j] == e;
    assert names[i] == names[j];
  }

  /** Nodes of the configuration file being built. */
  function ConfigNodes(g: DepGraph, configName: string): set<string> {
    set n | n in g.nodes && n in g.attrs && g.attrs[n].ConfigName() == configName
  }

  ghost predicate ResolvableUpTo(config: seq<Depset>, names: set<string>, n: nat) {
    forall i :: 0 <= i < n && i < |config| ==> Resolvable(config[i], names)
  }

  lemma CheckedAll(config: seq<Depset>)
    ensures ResolvableUpTo(config, Names(config), |config|) <==> AllResolvable(config)
  {}

  lemma {:induction false} BuiltSnoc(config: seq<Depset>, i: nat)
    requires i < |config|
    ensures Built(config[..i + 1]) == AddDepset(Built(config[..i]), config[i])
  {
    assert config[..i + 1][..i] == config[..i];
  }

  datatype BuildResult = BuildOk | BuildFailed(depset: string)

  /** `DependencySetManager` up to the graph: `_build` and the two ways of narrowing it. */
  class GraphManager {
    const config: seq<Depset>
    const configName: string
    var graph: DepGraph

    constructor (config: seq<Depset>, configName: string)
      ensures this.config == config && this.configName == configName && graph == EMPTY
    {
      this.config := config;
      this.configName := configName;
      this.graph := EMPTY;
    }

    method AddReferences(refs: seq<string>, name: string)
      modifies this`graph
      ensures graph == AddEdges(old(graph), refs, name)
    {
      for k := 0 to |refs|
        invariant graph == AddEdges(old(graph), refs[..k], name)
      {
        assert refs[..k + 1][..k] == refs[..k];
        graph := AddEdge(graph, refs[k], name);
      }
      assert refs[..|refs|] == refs;
    }

    method AddPreHooks(d: Depset)
      modifies this`graph
      ensures graph == AddHooks(old(graph), d, |d.preHooks|)
    {
      for k := 0 to |d.preHooks|
        invariant graph == AddHooks(old(graph), d, k)
      {
        graph := AddHook(graph, d, k);
      }
    }

    /** `_build`: it raises exactly when some depset has an unknown operation or reference. */
    method Build(buildAllConfigs: bool) returns (r: BuildResult)
      requires graph == EMPTY
      modifies this`graph
      ensures r.BuildOk? <==> AllResolvable(config)
      ensures r.BuildOk? && buildAllConfigs ==> graph == Built(config)
      ensures r.BuildOk? && !buildAllConfigs ==>
                graph == Subgraph(Built(config), WithAncestors(Built(config), ConfigNodes(Built(config), configName)))
    {
      r := AddDepsets(Names(config));
      CheckedAll(config);
      if r.BuildOk? && !buildAllConfigs {
        NoPlaceholders(config);
        SubgraphConfigNodes();
      }
    }

    /** The loop of `_build` over the configured depsets. */
    method AddDepsets(names: set<string>) returns (r: BuildResult)
      requires graph == EMPTY
      modifies this`graph
      ensures r.BuildOk? <==> ResolvableUpTo(config, names, |config|)
      ensures r.BuildOk? ==> graph == Built(config)
    {
      for i := 0 to |config|
        invariant ResolvableUpTo(config, names, i)
        invariant graph == Built(config[..i])
      {
        if !Resolvable(config[i], names) {
          return BuildFailed(config[i].name);
        }
        BuiltSnoc(config, i);
        AddOne(config[i]);
      }
      assert config[..|config|] == config;
      r := BuildOk;
    }

    /** One pass of that loop, after the checks. */
    method AddOne(d: Depset)
      modifies this`graph
      ensures graph == AddDepset(old(graph), d)
    {
      graph := AddNode(graph, d.name, DepsetNode(d));
      AddReferences(References(d), d.name);
      AddPreHooks(d);
    }

    /** `subgraph_dependency_nodes`: the graph shrinks to `name` and its ancestors. */
    method SubgraphDependencyNodes(name: string)
      requires WellFormed(graph) && name in graph.nodes
      modifies this`graph
      ensures graph == Subgraph(old(graph), WithAncestors(old(graph), {name}))
    {
      var dependencies := Ancestors(graph, name);
      WithAncestorsIsLeast(graph, {name}, {});
      assert dependencies + {name} == WithAncestors(graph, {name});
      graph := Subgraph(graph, dependencies + {name});
    }

    /** `subgraph_config_nodes`: the graph shrinks to the current file's nodes and their ancestors. */
    method SubgraphConfigNodes()
      requires WellFormed(graph) && graph.nodes == graph.attrs.Keys
      modifies this`graph
      ensures graph == Subgraph(old(graph), WithAncestors(old(graph), ConfigNodes(old(graph), configName)))
    {
      var targets := ConfigNodes(graph, configName);
      var keep, left := targets, targets;
      KeepNone(graph, targets);
      while left != {}
        invariant left <= targets <= graph.nodes && graph == old(graph)
        invariant keep == targets + WithAncestors(graph, targets - left)
        decreases |left|
      {
        var n :| n in left;
        var found := Ancestors(graph, n);
        KeepMore(graph, targets, left, n);
        keep, left := keep + found, left - {n};
      }
      KeepAll(graph, targets);
      graph := Subgraph(graph, keep);
    }
  }

  lemma {:induction false} KeepNone(g: DepGraph, targets: set<string>)
    ensures targets == targets + WithAncestors(g, targets - targets)
  {
    assert WithAncestors(g, {}) == {};
    assert targets - targets == {};
  }

  lemma {:induction false} KeepMore(g: DepGraph, targets: set<string>, left: set<string>, n: string)
    requires n in left && left <= targets
    ensures targets + WithAncestors(g, targets - left) + (WithAncestors(g, {n}) - {n})
         == targets + WithAncestors(g, targets - (left - {n}))
  {
    assert targets - (left - {n}) == targets - left + {n};
    AncestorsUnion(g, targets - left, {n});
  }

  lemma {:induction false} KeepAll(g: DepGraph, targets: set<string>)
    requires WellFormed(g) && targets <= g.nodes
    ensures targets + WithAncestors(g, targets - {}) == WithAncestors(g, targets)
  {
    assert targets - {} == targets;
    WithAncestorsIsLeast(g, targets, {});
  }

  lemma AncestorsUnion(g: DepGraph, a: set<string>, b: set<string>)
    ensures WithAncestors(g, a + b) == WithAncestors(g, a) + WithAncestors(g, b)
  {}

  // ----- Hooks, references and files, one by one -----

  lemma {:induction false} HookTail(d: Depset, k: nat)
    ensures var s, n := HookName(d, k), |Dec(k + 1)|;
            && |s| == |d.name| + 10 + n && s[..|d.name|] == d.name && s[|s| - n..] == Dec(k + 1)
            && s[|s| - n - 1] == '_'
  {
    var s := HookName(d, k);
    assert "_pre_hook_"[9] == '_' && |"_pre_hook_"| == 10;
    assert s[|d.name|..|d.name| + 10] == "_pre_hook_";
  }

  lemma {:induction false} LongerNumber(d: Depset, k: nat, e: Depset, l: nat)
    requires |Dec(k + 1)| < |Dec(l + 1)|
    ensures HookName(d, k) != HookName(e, l)
  {
    var n, m := |Dec(k + 1)|, |Dec(l + 1)|;
    HookTail(d, k);
    HookTail(e, l);
    DecDigit(l + 1, m - n - 1);
    var s := HookName(e, l);
    assert s[|s| - m..][m - n - 1] == s[|s| - n - 1];
  }

  /** Hook names tell both the depset and the hook. */
  lemma {:induction false} HookNamesDiffer(d: Depset, k: nat, e: Depset, l: nat)
    requires HookName(d, k) == HookName(e, l)
    ensures d.name == e.name && k == l
  {
    var n, m := |Dec(k + 1)|, |Dec(l + 1)|;
    if n < m {
      LongerNumber(d, k, e, l);
      assert false;
    } else if m < n {
      LongerNumber(e, l, d, k);
      assert false;
    } else {
      HookTail(d, k);
      HookTail(e, l);
      DecOrder(k + 1, l + 1);
    }
  }

  lemma {:induction false} AddHooksCarry(g: DepGraph, d: Depset, limit: nat, k: nat)
    requires k < limit <= |d.preHooks|
    ensures HookName(d, k) in AddHooks(g, d, limit).attrs
    ensures AddHooks(g, d, limit).attrs[HookName(d, k)] == HookNode(d.preHooks[k], d.configName)
  {
    if k < limit - 1 {
      AddHooksCarry(g, d, limit - 1, k);
      if HookName(d, limit - 1) == HookName(d, k) { HookNamesDiffer(d, limit - 1, d, k); }
    }
  }

  /** With distinct names, a hook's node carries the hook's command and the file of its depset. */
  lemma {:induction false} NodeCarriesHook(config: seq<Depset>, d: Depset, k: nat)
    requires DistinctNodes(config) && d in config && k < |d.preHooks|
    ensures HookName(d, k) in Built(config).attrs
    ensures Built(config).attrs[HookName(d, k)] == HookNode(d.preHooks[k], d.configName)
  {
    var init, last := config[..|config| - 1], config[|config| - 1];
    if d == last {
      var g := AddEdges(AddNode(Built(init), d.name, DepsetNode(d)), References(d), d.name);
      AddHooksCarry(g, d, |d.preHooks|, k);
    } else {
      DistinctPrefix(config);
      MemberSnoc(config, d);
      NodeCarriesHook(init, d, k);
      AddDepsetFacts(Built(init), last, HookName(d, k), d.name);
      assert last in config && d in config && IsHook(d, HookName(d, k));
      if IsHook(last, HookName(d, k)) {
        var l: nat :| l < |last.preHooks| && HookName(d, k) == HookName(last, l);
        HookNamesDiffer(d, k, last, l);
        SameName(config, d, last);
      }
    }
  }

  /** `d` builds on `u`: its source, one of those it expands, or one of its hooks. */
  ghost predicate BuildsOn(d: Depset, u: string) {
    || ((d.operation.Subset? || d.operation.Relax?) && d.sourceDepset == Some(u))
    || (d.operation.Expand? && u in d.depsets)
    || (exists k: nat :: k < |d.preHooks| && u == HookName(d, k))
  }

  /** The edges, spelled out by operation. */
  lemma {:induction false} EdgesByOperation(config: seq<Depset>, u: string, v: string)
    ensures (u, v) in Built(config).edges <==> exists d :: d in config && d.name == v && BuildsOn(d, u)
  {
    BuiltFacts(config, u, v);
    forall d: Depset ensures Asks(d, u) <==> BuildsOn(d, u) {
      assert IsHook(d, u) <==> exists k: nat :: k < |d.preHooks| && u == HookName(d, k);
    }
  }

  ghost predicate HasDepset(config: seq<Depset>, name: string) {
    exists e :: e in config && e.name == name
  }

  /** The checks pass exactly on known operations whose sources are given and whose references all exist. */
  lemma {:induction false} ResolvableExact(config: seq<Depset>, d: Depset)
    ensures Resolvable(d, Names(config))
       <==> && !d.operation.Unknown?
            && (d.operation.Subset? || d.operation.Relax? ==>
                  d.sourceDepset.Some? && HasDepset(config, d.sourceDepset.value))
            && (d.operation.Expand? ==> forall i :: 0 <= i < |d.depsets| ==> HasDepset(config, d.depsets[i]))
  {
    if d.sourceDepset.Some? { NamesFacts(config, d.sourceDepset.value); }
    forall i | 0 <= i < |d.depsets| ensures d.depsets[i] in Names(config) <==> HasDepset(config, d.depsets[i]) {
      NamesFacts(config, d.depsets[i]);
    }
    if d.operation.Expand? && Resolvable(d, Names(config)) {
      forall i | 0 <= i < |d.depsets| ensures d.depsets[i] in Names(config) {
        assert d.depsets[i] in d.depsets;
      }
    }
  }

  ghost predicate LeadsToFile(config: seq<Depset>, configName: string, n: string) {
    exists d :: d in config && d.configName == configName && Reaches(Built(config), n, d.name)
  }

  /** A node of the file is one of its depsets, or a hook that leads to one. */
  lemma {:induction false} FileNode(config: seq<Depset>, configName: string, t: string) returns (d: Depset)
    requires DistinctNodes(config) && t in ConfigNodes(Built(config), configName)
    ensures d in config && d.configName == configName && (d.name == t || (t, d.name) in Built(config).edges)
  {
    BuiltFacts(config, t, t);
    var attr := Built(config).attrs[t];
    if attr.DepsetNode? {
      d := attr.depset;
    } else {
      d :| d in config && (d.name == t || IsHook(d, t));
      if d.name == t {
        NodeCarriesDepset(config, d);
        assert false;
      }
      var k: nat :| k < |d.preHooks| && t == HookName(d, k);
      NodeCarriesHook(config, d, k);
      BuiltFacts(config, t, d.name);
      assert Asks(d, t);
    }
  }

  /** Building one file selects exactly its depsets and everything that leads to one of them. */
  lemma {:induction false} SelectionExact(config: seq<Depset>, configName: string, n: string)
    requires DistinctNodes(config) && AllResolvable(config)
    ensures n in WithAncestors(Built(config), ConfigNodes(Built(config), configName))
       <==> n in Built(config).nodes && LeadsToFile(config, configName, n)
  {
    var g, targets := Built(config), ConfigNodes(Built(config), configName);
    NoPlaceholders(config);
    if n in WithAncestors(g, targets) {
      var t :| t in targets && Reaches(g, n, t);
      var d := FileNode(config, configName, t);
      if d.name != t { ReachesOn(g, n, t, d.name); }
      assert d in config && d.configName == configName && Reaches(g, n, d.name);
    }
    if n in g.nodes && LeadsToFile(config, configName, n) {
      var d :| d in config && d.configName == configName && Reaches(g, n, d.name);
      NodeCarriesDepset(config, d);
      assert d.name in targets;
    }
  }

  /** A name stands for the first depset that has it. */
  lemma {:induction false} GetDepsetFirst(config: seq<Depset>, name: string) returns (k: nat)
    ensures k <= |config| && forall j :: 0 <= j < k ==> config[j].name != name
    ensures GetDepset(config, name).Some? <==> k < |config|
    ensures k < |config| ==> config[k].name == name && GetDepset(config, name) == Some(config[k])
  {
    k := 0;
    if config != [] && config[0].name != name {
      var m := GetDepsetFirst(config[1..], name);
      k := m + 1;
    }
  }
}
