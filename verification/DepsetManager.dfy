/** `DependencySetManager.execute` and the operations it dispatches to. */
module DepsetManager {
  import opened Seqs
  import opened BuildGraphs
  import opened Depsets
  import opened DepsetExpansion
  import opened UvCalls
  import opened DepsetExecution
  import opened DepsetConfluence

  ghost predicate Pins(lock: LockFile, p: string) {
    exists r :: r in lock.requirements && r.name == p
  }

  /** Removing packages keeps everything else, in order, and fails exactly on an unlisted package. */
  lemma {:induction false} RelaxRemoves(lock: LockFile, packages: seq<string>)
    ensures RelaxLock(lock, packages).Some? <==> forall i :: 0 <= i < |packages| ==> Pins(lock, packages[i])
    ensures RelaxLock(lock, packages).Some? ==>
              var kept := RelaxLock(lock, packages).value;
              && kept.rest == lock.rest
              && (forall r :: r in kept.requirements <==> r in lock.requirements && r.name !in packages)
  {
    FilterMembers(NotIn(packages), lock.requirements);
    var names := Map(ReqName, lock.requirements);
    forall p: string ensures p in names <==> Pins(lock, p) {
      if p in names {
        var i :| 0 <= i < |names| && names[i] == p;
        assert lock.requirements[i] in lock.requirements;
      }
      if r :| r in lock.requirements && r.name == p {
        var i :| 0 <= i < |lock.requirements| && lock.requirements[i] == r;
        assert names[i] == p;
      }
    }
  }

  lemma {:induction false} NoAccumulator(config: seq<Depset>, order: seq<string>, name: string)
    requires Grounded(config, order) && Ready(config, order, [name])
    ensures Elements([] + ExpandedList(config, order, name)) == ExpandedRequirements(config, name)
  {
    ExpansionIsReachable(config, order, name);
    assert [] + ExpandedList(config, order, name) == ExpandedList(config, order, name);
  }

  /** `list(s)`, in some order. */
  method ListOf(s: set<string>) returns (list: seq<string>)
    ensures multiset(list) == multiset(s)
  {
    list := [];
    var left := s;
    while left != {}
      invariant left <= s && multiset(list) == multiset(s - left)
      decreases |left|
    {
      var x :| x in left;
      assert s - (left - {x}) == (s - left) + {x};
      list, left := list + [x], left - {x};
    }
  }

  /** `after` is what the run leaves: the last state before its first failing step, if it has one. */
  ghost predicate LeavesFiles(s: Setup, g: DepGraph, order: seq<string>, before: Files, after: Files) {
    var r := Run(s, g, order, before);
    if r.Some? then after == r.value
    else exists k: nat :: k < |order| && Run(s, g, order[..k], before) == Some(after)
                          && Run(s, g, order[..k + 1], before) == None
  }

  ghost predicate Known(config: seq<Depset>, g: DepGraph, name: Option<string>) {
    name.Some? ==> name.value in Names(config) && name.value in g.nodes
  }

  /** `execute` narrows the graph to a named depset and its ancestors. */
  ghost function Narrowed(config: seq<Depset>, g: DepGraph, name: Option<string>): DepGraph {
    if name.Some? && Known(config, g, name) then Subgraph(g, WithAncestors(g, {name.value})) else g
  }

  lemma {:induction false} NarrowedFaithful(config: seq<Depset>, g: DepGraph, name: Option<string>)
    requires Faithful(g, config)
    ensures Faithful(Narrowed(config, g, name), config)
  {
    if name.Some? && Known(config, g, name) { SubgraphFaithful(g, config, {name.value}); }
  }

  /** All of `g`, or all that no cycle holds up, was run in a topological order until a step failed. */
  ghost predicate Ran(s: Setup, g: DepGraph, order: seq<string>, before: Files, after: Files, ok: bool) {
    && Ordered(g, order) && (Elements(order) == g.nodes <==> !HasCycle(g))
    && LeavesFiles(s, g, order, before, after)
    && (ok <==> !HasCycle(g) && Run(s, g, order, before).Some?)
  }

  /** An unknown name fails before anything runs. */
  ghost predicate Executed(s: Setup, g: DepGraph, name: Option<string>, order: seq<string>, before: Files,
                           after: Files, ok: bool) {
    if Known(s.config, g, name) then Ran(s, Narrowed(s.config, g, name), order, before, after, ok)
    else !ok && after == before
  }

  class DependencySetManager {
    const setup: Setup
    const graphs: GraphManager
    var files: Files

    constructor (setup: Setup, graphs: GraphManager, files: Files)
      ensures this.setup == setup && this.graphs == graphs && this.files == files
    {
      this.setup := setup;
      this.graphs := graphs;
      this.files := files;
    }

    /** The expanded requirements of one depset, from a fresh list. */
    method Expand(name: string, ghost order: seq<string>) returns (r: set<string>)
      requires Grounded(setup.config, order) && Ready(setup.config, order, [name])
      ensures r == ExpandedRequirements(setup.config, name)
    {
      var acc := new RequirementList();
      r := GetExpandedDepsetRequirements(setup.config, name, acc, order);
      NoAccumulator(setup.config, order, name);
    }

    /** `check_subset_exists`. */
    method CheckSubsetExists(source: string, requirements: seq<string>, ghost order: seq<string>) returns (ok: bool)
      requires Grounded(setup.config, order) && Ready(setup.config, order, [source])
      ensures ok <==> IsSubsetOf(setup.config, requirements, source)
    {
      for i := 0 to |requirements|
        invariant IsSubsetOf(setup.config, requirements[..i], source)
      {
        var expanded := Expand(source, order);
        if requirements[i] !in expanded {
          return false;
        }
      }
      ok := true;
    }

    /** The loop of `expand` over the depsets it lists. */
    method CollectInputs(deps: seq<string>, ghost order: seq<string>) returns (ok: bool, inputs: seq<string>)
      requires Grounded(setup.config, order) && Ready(setup.config, order, deps)
      ensures ExpandInputs(setup.config, deps) == if ok then Some(multiset(inputs)) else None
    {
      inputs := [];
      for k := 0 to |deps|
        invariant ExpandInputs(setup.config, deps[..k]) == Some(multiset(inputs))
      {
        InputsSnoc(setup.config, deps, k);
        ReadyParts(setup.config, order, deps, k);
        assert deps[k] in [deps[k]];
        var dep := GetDepset(setup.config, deps[k]).value;
        if dep.operation.Relax? {
          if dep.output.None? {
            InputsFail(setup.config, deps, k + 1);
            return false, [];
          }
          inputs := inputs + [dep.output.value];
        } else {
          var expanded := Expand(deps[k], order);
          var list := ListOf(expanded);
          inputs := inputs + list;
        }
      }
      assert deps[..|deps|] == deps;
      ok := true;
    }

    /** `compile`, `subset` or `expand` up to the uv call: the call and its command line. */
    method PlanCall(d: Depset, ghost order: seq<string>) returns (call: Option<Invocation>, args: seq<string>)
      requires Grounded(setup.config, order) && Ready(setup.config, order, References(d))
      requires Resolvable(d, Names(setup.config)) && !d.operation.Relax?
      ensures call == UvCall(setup.config, d, setup.cacheDir)
      ensures call.Some? ==> args == Argv(call.value)
    {
      match d.operation {
        case Compile =>
          call, args := Compile(d, d.constraints, d.requirements, d.packages);
        case Subset =>
          var name := d.sourceDepset.value;
          assert name in References(d);
          var source := GetDepset(setup.config, name).value;
          var ok := CheckSubsetExists(name, d.requirements, order);
          if ok && source.output.Some? {
            call, args := Compile(d, [source.output.value], d.requirements, []);
          } else {
            call, args := None, [];
          }
        case Expand =>
          var ok, inputs := CollectInputs(d.depsets, order);
          if ok {
            call, args := Compile(d, d.constraints, inputs + d.requirements, []);
          } else {
            call, args := None, [];
          }
      }
    }

    method Compile(d: Depset, constraints: seq<string>, requirements: seq<string>, packages: seq<string>)
      returns (call: Option<Invocation>, args: seq<string>)
      ensures call == Some(Invocation(FlagArgs(d, setup.cacheDir), multiset(constraints), multiset(requirements),
                                      packages, d.output))
      ensures args == Argv(call.value)
    {
      var flags := FlagArgs(d, setup.cacheDir);
      args := BuildArgs(flags, constraints, requirements, packages, d.output);
      call := Some(Invocation(flags, multiset(constraints), multiset(requirements), packages, d.output));
    }

    /** `execute_depset`: the files change as specified, or nothing changes and the operation raises. */
    method ExecuteDepset(d: Depset, ghost order: seq<string>) returns (ok: bool)
      requires Grounded(setup.config, order) && Ready(setup.config, order, References(d))
      requires Resolvable(d, Names(setup.config))
      modifies this`files
      ensures Step(setup, d, old(files)) == if ok then Some(files) else None
      ensures !ok ==> files == old(files)
    {
      var content: Option<string> := None;
      if d.operation.Relax? {
        var lock := SourceLock(setup.config, d);
        if lock.Some? && lock.value in files {
          var relaxed := RelaxLock(setup.tools.parse(files[lock.value]), d.packages);
          if relaxed.Some? {
            content := Some(setup.tools.dump(relaxed.value));
          }
        }
      } else {
        var call, args := PlanCall(d, order);
        if call.Some? {
          content := setup.tools.uv(args, call.value.packages, Visible(files, CallReads(call.value)));
        }
      }
      assert content == Result(setup, d, files);
      if content.None? {
        return false;
      }
      files := Put(files, Writes(setup.config, d), content.value);
      ok := true;
    }

    /**
     * `execute`: all depsets, or one with its ancestors, in topological order. It terminates on every
     * configuration that passed the checks. A cycle makes it fail after the nodes that could be ordered;
     * otherwise it fails exactly when the run in that order does. In any case the files are those of the
     * steps that succeeded.
     */
    method Execute(name: Option<string>) returns (ok: bool, ghost order: seq<string>)
      requires AllResolvable(setup.config) && Faithful(graphs.graph, setup.config)
      modifies this`files, graphs`graph
      ensures graphs.graph == Narrowed(setup.config, old(graphs.graph), name)
      ensures Executed(setup, old(graphs.graph), name, order, old(files), files, ok)
    {
      order := [];
      if name.Some? {
        NamesFacts(setup.config, name.value);
        if GetDepset(setup.config, name.value).None? || name.value !in graphs.graph.nodes {
          return false, [];
        }
        graphs.SubgraphDependencyNodes(name.value);
      }
      NarrowedFaithful(setup.config, old(graphs.graph), name);
      ok, order := SortAndRun(graphs.graph);
    }

    method SortAndRun(g: DepGraph) returns (ok: bool, ghost order: seq<string>)
      requires AllResolvable(setup.config) && Faithful(g, setup.config)
      modifies this`files
      ensures Ran(setup, g, order, old(files), files, ok)
    {
      var nodes, complete := TopologicalSort(g);
      order := nodes;
      ok := ExecuteNodes(g, nodes);
      ok := ok && complete;
    }

    /** The loop of `execute`. */
    method ExecuteNodes(g: DepGraph, order: seq<string>) returns (ok: bool)
      requires AllResolvable(setup.config) && Faithful(g, setup.config) && Ordered(g, order)
      modifies this`files
      ensures ok <==> Run(setup, g, order, old(files)).Some?
      ensures LeavesFiles(setup, g, order, old(files), files)
    {
      OrderIsGrounded(g, setup.config, order);
      for i := 0 to |order|
        invariant Run(setup, g, order[..i], old(files)) == Some(files)
      {
        RunSnoc(setup, g, order, i, old(files));
        NodeReady(setup, g, order, i);
        var attr := g.attrs[order[i]];
        if attr.DepsetNode? {
          var done := ExecuteDepset(attr.depset, order[..i]);
          if !done {
            RunFails(setup, g, order, i + 1, old(files));
            return false;
          }
        }
      }
      assert order[..|order|] == order;
      ok := true;
    }
  }

  // ----- The build command -----

  /** The graph after `_build`: of all configuration files, or of one with the ancestors of its nodes. */
  ghost function Selected(config: seq<Depset>, configName: string, allConfigs: bool): DepGraph {
    var g := Built(config);
    if allConfigs then g else Subgraph(g, WithAncestors(g, ConfigNodes(g, configName)))
  }

  lemma {:induction false} SelectedFaithful(config: seq<Depset>, configName: string, allConfigs: bool)
    requires AllResolvable(config)
    ensures Faithful(Selected(config, configName, allConfigs), config)
  {
    var g := Built(config);
    BuiltFaithful(config);
    SubgraphFaithful(g, config, ConfigNodes(g, configName));
  }

  /** What a command selects: with all files everything, else what leads to a depset of the given one. */
  lemma {:induction false} SelectedExact(config: seq<Depset>, configName: string, allConfigs: bool, n: string)
    requires DistinctNodes(config) && AllResolvable(config)
    ensures n in Selected(config, configName, allConfigs).nodes
       <==> n in Built(config).nodes && (allConfigs || LeadsToFile(config, configName, n))
  {
    SelectionExact(config, configName, n);
  }

  /** A named depset narrows that to what leads to it. */
  lemma {:induction false} NarrowedExact(config: seq<Depset>, g: DepGraph, name: string, n: string)
    requires Known(config, g, Some(name))
    ensures n in Narrowed(config, g, Some(name)).nodes <==> n in g.nodes && Reaches(g, n, name)
  {
    assert name in {name};
  }

  datatype Outcome = Rejected | Failed | Done

  /** Whatever topological order is taken, the build of `g` ends as it did. */
  ghost predicate Determined(s: Setup, g: DepGraph, before: Files, after: Files, ok: bool) {
    forall o :: Ordered(g, o) && Elements(o) == g.nodes ==>
      Run(s, g, o, before).Some? == ok && (ok ==> Run(s, g, o, before) == Some(after))
  }

  lemma {:induction false} BuildDetermined(s: Setup, g: DepGraph, order: seq<string>, before: Files, after: Files,
                                           ok: bool)
    requires WellFormed(g) && Orderly(s, g, g.nodes) && !HasCycle(g) && Ran(s, g, order, before, after, ok)
    ensures Determined(s, g, before, after, ok)
  {
    forall o | Ordered(g, o) && Elements(o) == g.nodes ensures Run(s, g, o, before) == Run(s, g, order, before) {
      Confluence(s, g, order, o, before);
    }
  }

  /**
   * The `build` command: construct the manager, which builds the graph, and execute. It is rejected
   * exactly on a configuration that does not resolve. Otherwise it executes what was selected; on known
   * names and acyclic graphs it ends as every topological order of the selected nodes does, provided
   * depsets that touch the same file are ordered by the graph.
   */
  method BuildCommand(setup: Setup, configName: string, allConfigs: bool, name: Option<string>, initial: Files)
    returns (r: Outcome, files: Files, ghost order: seq<string>)
    ensures r.Rejected? <==> !AllResolvable(setup.config)
    ensures r.Rejected? ==> files == initial
    ensures !r.Rejected? ==>
              var selected := Selected(setup.config, configName, allConfigs);
              var g := Narrowed(setup.config, selected, name);
              && Executed(setup, selected, name, order, initial, files, r.Done?)
              && (Known(setup.config, selected, name) && !HasCycle(g) && Orderly(setup, g, g.nodes) ==>
                    Determined(setup, g, initial, files, r.Done?))
  {
    var graphs := new GraphManager(setup.config, configName);
    var built := graphs.Build(allConfigs);
    if built.BuildFailed? {
      return Rejected, initial, [];
    }
    SelectedFaithful(setup.config, configName, allConfigs);
    ghost var selected := graphs.graph;
    var manager := new DependencySetManager(setup, graphs, initial);
    var ok;
    ok, order := manager.Execute(name);
    files := manager.files;
    r := if ok then Done else Failed;
    ExecutedDetermined(setup, selected, name, order, initial, files, ok);
  }

  lemma {:induction false} ExecutedDetermined(s: Setup, selected: DepGraph, name: Option<string>, order: seq<string>,
                                              before: Files, after: Files, ok: bool)
    requires Faithful(selected, s.config) && Executed(s, selected, name, order, before, after, ok)
    ensures var g := Narrowed(s.config, selected, name);
            Known(s.config, selected, name) && !HasCycle(g) && Orderly(s, g, g.nodes) ==>
              Determined(s, g, before, after, ok)
  {
    var g := Narrowed(s.config, selected, name);
    NarrowedFaithful(s.config, selected, name);
    if Known(s.config, selected, name) && !HasCycle(g) && Orderly(s, g, g.nodes) {
      BuildDetermined(s, g, order, before, after, ok);
    }
  }

  lemma {:induction false} InputsSnoc(config: seq<Depset>, deps: seq<string>, k: nat)
    requires k < |deps|
    ensures ExpandInputs(config, deps[..k + 1]) ==
            var before := ExpandInputs(config, deps[..k]);
            var own := ExpandInput(config, deps[k]);
            if before.None? || own.None? then None else Some(before.value + own.value)
  {
    assert deps[..k + 1][..k] == deps[..k];
  }

  lemma {:induction false} InputsFail(config: seq<Depset>, deps: seq<string>, k: nat)
    requires k <= |deps| && ExpandInputs(config, deps[..k]) == None
    ensures ExpandInputs(config, deps) == None
    decreases |deps| - k
  {
    if k == |deps| {
      assert deps[..k] == deps;
    } else {
      InputsSnoc(config, deps, k);
      InputsFail(config, deps, k + 1);
    }
  }

  lemma {:induction false} RunSnoc(s: Setup, g: DepGraph, order: seq<string>, i: nat, files: Files)
    requires i < |order|
    ensures Run(s, g, order[..i + 1], files) ==
            var before := Run(s, g, order[..i], files);
            if before.None? then None else Visit(s, g, order[i], before.value)
  {
    assert order[..i + 1][..i] == order[..i];
  }

  lemma {:induction false} RunFails(s: Setup, g: DepGraph, order: seq<string>, i: nat, files: Files)
    requires i <= |order| && Run(s, g, order[..i], files) == None
    ensures Run(s, g, order, files) == None
    decreases |order| - i
  {
    if i == |order| {
      assert order[..i] == order;
    } else {
      RunSnoc(s, g, order, i, files);
      RunFails(s, g, order, i + 1, files);
    }
  }

  /** When a depset's turn comes, everything it refers to exists and has had its turn. */
  lemma {:induction false} NodeReady(s: Setup, g: DepGraph, order: seq<string>, i: nat)
    requires AllResolvable(s.config) && Faithful(g, s.config) && Ordered(g, order) && i < |order|
    ensures order[i] in g.attrs && Grounded(s.config, order[..i])
    ensures g.attrs[order[i]].DepsetNode? ==>
              var d := g.attrs[order[i]].depset;
              Resolvable(d, Names(s.config)) && Ready(s.config, order[..i], References(d))
  {
    OrderIsGrounded(g, s.config, order);
    GroundedPrefix(s.config, order, i);
    BuiltFacts(s.config, order[i], order[i]);
    if g.attrs[order[i]].DepsetNode? {
      var d := g.attrs[order[i]].depset;
      forall r | r in References(d) ensures r in order[..i] && GetDepset(s.config, r).Some? {
        NamesFacts(s.config, r);
      }
    }
  }
}
