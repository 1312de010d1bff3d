/** The converse of confluence: a file shared by depsets that nothing orders makes the order matter. */
module DepsetRaces {
  import opened Seqs
  import opened BuildGraphs
  import opened BuildOrders
  import opened Depsets
  import opened UvCalls
  import opened DepsetExecution
  import opened DepsetConfluence

  /** Every depset has an output path of its own. */
  ghost predicate OwnOutputs(config: seq<Depset>) {
    && (forall d :: d in config ==> d.output.Some?)
    && (forall d, e :: d in config && e in config && d.output == e.output ==> d == e)
  }

  /** The node does not raise before it comes to use a foreign tool. */
  ghost predicate CanRun(s: Setup, g: DepGraph, n: string) {
    && n in g.attrs
    && (g.attrs[n].DepsetNode? ==>
          var d := g.attrs[n].depset;
          if d.operation.Relax? then SourceLock(s.config, d).Some? else UvCall(s.config, d, s.cacheDir).Some?)
  }

  ghost predicate AllCanRun(s: Setup, g: DepGraph, nodes: set<string>) {
    forall n :: n in nodes ==> CanRun(s, g, n)
  }

  /** Two nodes that can both come to run touch the same file, and the graph does not order them. */
  ghost predicate Race(s: Setup, g: DepGraph, x: string, y: string) {
    && x in g.nodes && y in g.nodes && x != y
    && Conflict(s, g, x, y) && !Comparable(g, x, y) && AllCanRun(s, g, WithAncestors(g, {x, y}))
  }

  /** All topological orders of the same nodes have the same outcome on the given files. */
  ghost predicate OrdersAgree(s: Setup, g: DepGraph, files: Files) {
    forall a, b :: Ordered(g, a) && Ordered(g, b) && Elements(a) == Elements(b) ==>
      Run(s, g, a, files) == Run(s, g, b, files)
  }

  // ----- Without a race the order does not matter -----

  lemma {:induction false} CannotVisit(s: Setup, g: DepGraph, n: string, files: Files)
    requires !CanRun(s, g, n)
    ensures Visit(s, g, n, files) == None
  {}

  lemma {:induction false} RunStops(s: Setup, g: DepGraph, order: seq<string>, k: nat, files: Files)
    requires k < |order| && !CanRun(s, g, order[k])
    ensures Run(s, g, order, files) == None
  {
    var init, n := order[..|order| - 1], order[|order| - 1];
    if k < |order| - 1 {
      RunStops(s, g, init, k, files);
    } else if Run(s, g, init, files).Some? {
      CannotVisit(s, g, n, Run(s, g, init, files).value);
    }
  }

  lemma {:induction false} OrderlyOrder(s: Setup, g: DepGraph, a: seq<string>)
    requires WellFormed(g) && Ordered(g, a) && AllCanRun(s, g, Elements(a))
    requires forall x, y :: !Race(s, g, x, y)
    ensures Orderly(s, g, Elements(a))
  {
    OrderedPrefix(g, a, |a|);
    assert a[..|a|] == a;
    forall x, y | x in Elements(a) && y in Elements(a) && x != y && Conflict(s, g, x, y) ensures Comparable(g, x, y) {
      WithAncestorsIsLeast(g, {x, y}, Elements(a));
      assert !Race(s, g, x, y);
    }
  }

  lemma {:induction false} NoRaceAgree(s: Setup, g: DepGraph, a: seq<string>, b: seq<string>, files: Files)
    requires WellFormed(g) && (forall x, y :: !Race(s, g, x, y))
    requires Ordered(g, a) && Ordered(g, b) && Elements(a) == Elements(b)
    ensures Run(s, g, a, files) == Run(s, g, b, files)
  {
    if AllCanRun(s, g, Elements(a)) {
      OrderlyOrder(s, g, a);
      Confluence(s, g, a, b, files);
    } else {
      var n :| n in Elements(a) && !CanRun(s, g, n);
      var i := PositionOf(a, n);
      var j := PositionOf(b, n);
      RunStops(s, g, a, i, files);
      RunStops(s, g, b, j, files);
    }
  }

  // ----- Tools that expose a race -----

  function PackagesOf(d: Depset): seq<string> { d.packages }

  function Pin(p: string): Requirement { Requirement(p, "") }

  /** The command line ends in `-o target`. */
  predicate WritesTo(args: seq<string>, target: string) {
    |args| >= 2 && args[|args| - 2] == "-o" && args[|args| - 1] == target
  }

  lemma {:induction false} ArgvEnds(call: Invocation, target: string)
    requires call.output.Some?
    ensures WritesTo(Argv(call), target) <==> call.output == Some(target)
  {
    var args, out := Argv(call), call.output.value;
    var before := call.flags + (WithMark(Arranged(call.constraints))
                  + (Arranged(call.requirements) + if call.packages != [] then ["-"] else []));
    assert args == before + ["-o", out];
  }

  /** Everything is written as "new", but the target as "early" when its depset sees the old watched file. */
  function RaceTools(config: seq<Depset>, watch: string, target: string): Tools {
    Tools((args: seq<string>, packages: seq<string>, seen: Files) =>
            Some(if WritesTo(args, target) && watch in seen && seen[watch] == "old" then "early" else "new"),
          (text: string) => LockFile(Map(Pin, Concat(Map(PackagesOf, config))), ""),
          (lock: LockFile) => "new")
  }

  function Outputs(config: seq<Depset>): set<string> {
    set d | d in config && d.output.Some? :: d.output.value
  }

  function OldFiles(config: seq<Depset>): Files {
    map p | p in Outputs(config) :: "old"
  }

  lemma {:induction false} PackagesListed(config: seq<Depset>, d: Depset, text: string, watch: string, target: string)
    requires d in config
    ensures RelaxLock(RaceTools(config, watch, target).parse(text), d.packages).Some?
  {
    var all := Concat(Map(PackagesOf, config));
    var lock := RaceTools(config, watch, target).parse(text);
    assert Map(ReqName, lock.requirements) == all;
    var k :| 0 <= k < |config| && config[k] == d;
    forall i | 0 <= i < |d.packages| ensures d.packages[i] in all {
      ConcatMembers(Map(PackagesOf, config), d.packages[i]);
      assert d.packages[i] in Map(PackagesOf, config)[k];
    }
  }

  /** What the race tools make of a depset that can run. */
  ghost function RaceContent(s: Setup, d: Depset, files: Files, watch: string, target: string): string {
    if !d.operation.Relax? && d.output == Some(target) && watch in Visible(files, Reads(s.config, d, s.cacheDir))
       && files[watch] == "old" then "early" else "new"
  }

  lemma {:induction false} RaceResult(s: Setup, g: DepGraph, n: string, files: Files, watch: string, target: string)
    requires s.tools == RaceTools(s.config, watch, target) && OwnOutputs(s.config) && Outputs(s.config) <= files.Keys
    requires CanRun(s, g, n) && g.attrs[n].DepsetNode? && g.attrs[n].depset in s.config
    ensures Result(s, g.attrs[n].depset, files) == Some(RaceContent(s, g.attrs[n].depset, files, watch, target))
  {
    var d := g.attrs[n].depset;
    if d.operation.Relax? {
      var lock := SourceLock(s.config, d).value;
      assert lock in Outputs(s.config);
      PackagesListed(s.config, d, files[lock], watch, target);
    } else {
      ArgvEnds(UvCall(s.config, d, s.cacheDir).value, target);
    }
  }

  lemma {:induction false} RaceVisit(s: Setup, g: DepGraph, n: string, files: Files, watch: string, target: string)
    requires s.tools == RaceTools(s.config, watch, target) && OwnOutputs(s.config) && Outputs(s.config) <= files.Keys
    requires CanRun(s, g, n) && (g.attrs[n].DepsetNode? ==> g.attrs[n].depset in s.config)
    ensures Visit(s, g, n, files).Some? && Outputs(s.config) <= Visit(s, g, n, files).value.Keys
  {
    if g.attrs[n].DepsetNode? { RaceResult(s, g, n, files, watch, target); }
  }

  ghost predicate FromConfig(s: Setup, g: DepGraph) {
    forall n :: IsDepset(g, n) ==> g.attrs[n].depset in s.config && g.attrs[n].depset.name == n
  }

  lemma {:induction false} RaceRuns(s: Setup, g: DepGraph, order: seq<string>, files: Files, watch: string,
                                    target: string)
    requires s.tools == RaceTools(s.config, watch, target) && OwnOutputs(s.config) && Outputs(s.config) <= files.Keys
    requires FromConfig(s, g) && AllCanRun(s, g, Elements(order))
    ensures Run(s, g, order, files).Some? && Outputs(s.config) <= Run(s, g, order, files).value.Keys
  {
    if order != [] {
      var init, n := order[..|order| - 1], order[|order| - 1];
      ElementsSnoc(order);
      RaceRuns(s, g, init, files, watch, target);
      assert CanRun(s, g, n);
      RaceVisit(s, g, n, Run(s, g, init, files).value, watch, target);
    }
  }

  lemma {:induction false} OneWriter(s: Setup, g: DepGraph, n: string, m: string, p: string)
    requires OwnOutputs(s.config) && FromConfig(s, g)
    requires NodeWrites(s, g, n) == Some(p) && NodeWrites(s, g, m) == Some(p)
    ensures n == m && g.attrs[n].depset.output == Some(p)
  {
    assert g.attrs[n].depset == g.attrs[m].depset;
  }

  lemma {:induction false} VisitContent(s: Setup, g: DepGraph, n: string, files: Files, p: string, watch: string,
                                        target: string)
    requires s.tools == RaceTools(s.config, watch, target) && OwnOutputs(s.config) && Outputs(s.config) <= files.Keys
    requires FromConfig(s, g) && CanRun(s, g, n) && NodeWrites(s, g, n) == Some(p)
    ensures var r := Visit(s, g, n, files);
            r.Some? && p in r.value && r.value[p] == RaceContent(s, g.attrs[n].depset, files, watch, target)
  {
    RaceResult(s, g, n, files, watch, target);
  }

  /** What a node writes when it is its turn. */
  lemma {:induction false} WrittenContent(s: Setup, g: DepGraph, before: seq<string>, n: string, files: Files,
                                          p: string, watch: string, target: string)
    requires s.tools == RaceTools(s.config, watch, target) && OwnOutputs(s.config) && Outputs(s.config) <= files.Keys
    requires FromConfig(s, g) && AllCanRun(s, g, Elements(before)) && CanRun(s, g, n)
    requires NodeWrites(s, g, n) == Some(p)
    ensures var r, own := Run(s, g, before, files), Run(s, g, before + [n], files);
            && r.Some? && own.Some? && p in own.value
            && own.value[p] == RaceContent(s, g.attrs[n].depset, r.value, watch, target)
  {
    RaceRuns(s, g, before, files, watch, target);
    VisitContent(s, g, n, Run(s, g, before, files).value, p, watch, target);
    RunThen(s, g, before, n, files);
  }

  lemma {:induction false} EarlierCanRun(s: Setup, g: DepGraph, order: seq<string>, k: nat)
    requires AllCanRun(s, g, Elements(order)) && k < |order|
    ensures AllCanRun(s, g, Elements(order[..k])) && CanRun(s, g, order[k])
  {
    assert order[k] in Elements(order);
    assert Elements(order[..k]) <= Elements(order);
  }

  lemma {:induction false} NoLaterWriter(s: Setup, g: DepGraph, order: seq<string>, k: nat, p: string)
    requires OwnOutputs(s.config) && FromConfig(s, g) && NoDups(order)
    requires k < |order| && NodeWrites(s, g, order[k]) == Some(p)
    ensures forall i :: k + 1 <= i < |order| ==> NodeWrites(s, g, order[i]) != Some(p)
  {
    forall i | k + 1 <= i < |order| ensures NodeWrites(s, g, order[i]) != Some(p) {
      if NodeWrites(s, g, order[i]) == Some(p) { OneWriter(s, g, order[i], order[k], p); }
    }
  }

  /** The file of the k-th node ends up as that node made it. */
  lemma {:induction false} FinalContent(s: Setup, g: DepGraph, order: seq<string>, k: nat, files: Files, p: string,
                                        watch: string, target: string)
    requires s.tools == RaceTools(s.config, watch, target) && OwnOutputs(s.config) && Outputs(s.config) <= files.Keys
    requires FromConfig(s, g) && AllCanRun(s, g, Elements(order)) && NoDups(order)
    requires k < |order| && NodeWrites(s, g, order[k]) == Some(p)
    ensures Run(s, g, order, files).Some? && Run(s, g, order[..k], files).Some? && p in Run(s, g, order, files).value
    ensures Run(s, g, order, files).value[p]
         == RaceContent(s, g.attrs[order[k]].depset, Run(s, g, order[..k], files).value, watch, target)
  {
    RaceRuns(s, g, order, files, watch, target);
    EarlierCanRun(s, g, order, k);
    WrittenContent(s, g, order[..k], order[k], files, p, watch, target);
    ContentStays(s, g, order, k, files, p);
  }

  lemma {:induction false} ContentStays(s: Setup, g: DepGraph, order: seq<string>, k: nat, files: Files, p: string)
    requires OwnOutputs(s.config) && FromConfig(s, g) && NoDups(order) && Run(s, g, order, files).Some?
    requires k < |order| && NodeWrites(s, g, order[k]) == Some(p)
    ensures Run(s, g, order[..k] + [order[k]], files).Some?
    ensures SameAt(Run(s, g, order, files).value, Run(s, g, order[..k] + [order[k]], files).value, p)
  {
    assert order[..k + 1] == order[..k] + [order[k]];
    NoLaterWriter(s, g, order, k, p);
    RunUnwritten(s, g, order, k + 1, files, p);
  }

  /** The watched file is new exactly when its writer has run. */
  lemma {:induction false} WatchedFile(s: Setup, g: DepGraph, order: seq<string>, y: string, watch: string,
                                       target: string)
    requires s.tools == RaceTools(s.config, watch, target) && watch in Outputs(s.config) && watch != target
    requires OwnOutputs(s.config) && FromConfig(s, g) && AllCanRun(s, g, Elements(order)) && NoDups(order)
    requires NodeWrites(s, g, y) == Some(watch)
    ensures var r := Run(s, g, order, OldFiles(s.config));
            r.Some? && watch in r.value && r.value[watch] == if y in Elements(order) then "new" else "old"
  {
    var start := OldFiles(s.config);
    RaceRuns(s, g, order, start, watch, target);
    if y in Elements(order) {
      var k := PositionOf(order, y);
      OneWriter(s, g, y, y, watch);
      FinalContent(s, g, order, k, start, watch, watch, target);
    } else {
      forall i | 0 <= i < |order| ensures NodeWrites(s, g, order[i]) != Some(watch) {
        assert order[i] in Elements(order);
        if NodeWrites(s, g, order[i]) == Some(watch) { OneWriter(s, g, order[i], y, watch); }
      }
      RunUnwritten(s, g, order, 0, start, watch);
    }
  }

  /** How the reader's file ends up tells whether the writer had run before it. */
  lemma {:induction false} TargetFile(s: Setup, g: DepGraph, order: seq<string>, k: nat, y: string, watch: string,
                                      target: string)
    requires s.tools == RaceTools(s.config, watch, target) && watch in Outputs(s.config) && watch != target
    requires OwnOutputs(s.config) && FromConfig(s, g) && AllCanRun(s, g, Elements(order)) && NoDups(order)
    requires NodeWrites(s, g, y) == Some(watch)
    requires k < |order| && NodeWrites(s, g, order[k]) == Some(target) && watch in NodeReads(s, g, order[k])
    requires !g.attrs[order[k]].depset.operation.Relax?
    ensures var r := Run(s, g, order, OldFiles(s.config));
            r.Some? && target in r.value && r.value[target] == if y in Elements(order[..k]) then "new" else "early"
  {
    OneWriter(s, g, order[k], order[k], target);
    FinalContent(s, g, order, k, OldFiles(s.config), target, watch, target);
    assert Elements(order[..k]) <= Elements(order);
    WatchedFile(s, g, order[..k], y, watch, target);
  }

  // ----- A race makes the order matter -----

  lemma {:induction false} BuiltFromConfig(s: Setup)
    ensures FromConfig(s, Built(s.config))
  {
    forall n | IsDepset(Built(s.config), n)
      ensures Built(s.config).attrs[n].depset in s.config && Built(s.config).attrs[n].depset.name == n
    {
      BuiltFacts(s.config, n, n);
    }
  }

  /** A relax depset reads nothing but the output of the depset it refers to. */
  lemma {:induction false} RelaxReadsReference(s: Setup, x: string, y: string)
    requires OwnOutputs(s.config) && IsDepset(Built(s.config), x) && Built(s.config).attrs[x].depset.operation.Relax?
    requires Interferes(s, Built(s.config), y, x) && x != y
    ensures Reaches(Built(s.config), y, x)
  {
    var g := Built(s.config);
    BuiltFromConfig(s);
    var d, e := g.attrs[x].depset, g.attrs[y].depset;
    assert e.output == SourceLock(s.config, d);
    assert GetDepset(s.config, d.sourceDepset.value).value == e;
    assert Asks(d, y);
    BuiltFacts(s.config, y, x);
    ReachesSelf(g, x);
    ReachesStep(g, y, x, x);
  }

  lemma {:induction false} NearAndAll(g: DepGraph, x: string, y: string)
    requires WellFormed(g) && x in g.nodes && y in g.nodes && !Reaches(g, y, x)
    ensures var near, all := WithAncestors(g, {x}), WithAncestors(g, {x, y});
            && AncestorClosed(g, near) && AncestorClosed(g, all) && x in near && y !in near && near <= all <= g.nodes
  {
    var all := WithAncestors(g, {x, y});
    WithAncestorsIsLeast(g, {x, y}, {});
    assert x in {x, y} && x in all;
    WithAncestorsIsLeast(g, {x}, all);
    NotAncestor(g, x, y);
  }

  lemma {:induction false} NotAncestor(g: DepGraph, x: string, y: string)
    requires !Reaches(g, y, x)
    ensures y !in WithAncestors(g, {x})
  {}

  /** An order of some closed nodes, completed to more of them. */
  lemma {:induction false} OrderVia(g: DepGraph, near: set<string>, all: set<string>, x: string, y: string)
    returns (order: seq<string>, k: nat)
    requires !HasCycle(g) && AncestorClosed(g, near) && AncestorClosed(g, all) && near <= all <= g.nodes
    requires x in near && y !in near
    ensures Ordered(g, order) && Elements(order) == all
    ensures k < |order| && order[k] == x && y !in Elements(order[..k])
  {
    var first := OrderExists(g, near);
    var more := CompleteOrder(g, first, all);
    k := PositionOf(first, x);
    order := first + more;
    assert order[..k] == first[..k];
    assert Elements(first[..k]) <= Elements(first);
  }

  /** An order of two nodes and their ancestors in which the first comes first. */
  lemma {:induction false} OrderWithFirst(g: DepGraph, x: string, y: string) returns (order: seq<string>, k: nat)
    requires WellFormed(g) && !HasCycle(g) && x in g.nodes && y in g.nodes && !Reaches(g, y, x)
    ensures Ordered(g, order) && Elements(order) == WithAncestors(g, {x, y})
    ensures k < |order| && order[k] == x && y !in Elements(order[..k])
  {
    NearAndAll(g, x, y);
    order, k := OrderVia(g, WithAncestors(g, {x}), WithAncestors(g, {x, y}), x, y);
  }

  lemma {:induction false} FirstIsBefore(order: seq<string>, j: nat, x: string, y: string) returns (k: nat)
    requires NoDups(order) && j < |order| && order[j] == y && x != y
    requires x in Elements(order) && x !in Elements(order[..j])
    ensures k < |order| && order[k] == x && y in Elements(order[..k])
  {
    k := PositionOf(order, x);
    forall i | 0 <= i < j ensures order[i] != x {
      assert order[..j][i] in Elements(order[..j]);
    }
    assert order[..k][j] == y;
  }

  lemma {:induction false} TwoOrders(g: DepGraph, x: string, y: string)
    returns (a: seq<string>, i: nat, b: seq<string>, j: nat)
    requires WellFormed(g) && !HasCycle(g) && x in g.nodes && y in g.nodes && x != y && !Comparable(g, x, y)
    ensures Ordered(g, a) && Ordered(g, b) && Elements(a) == Elements(b) == WithAncestors(g, {x, y})
    ensures i < |a| && a[i] == x && y !in Elements(a[..i])
    ensures j < |b| && b[j] == x && y in Elements(b[..j])
  {
    var k;
    a, i := OrderWithFirst(g, x, y);
    b, k := OrderWithFirst(g, y, x);
    assert {y, x} == {x, y};
    assert a[i] in Elements(a);
    j := FirstIsBefore(b, k, x, y);
  }

  /** A reader and a writer that race: some tools, files and two orders tell them apart. */
  lemma {:induction false} ReaderRaces(s: Setup, x: string, y: string) returns (tools: Tools)
    requires AllResolvable(s.config) && OwnOutputs(s.config) && !HasCycle(Built(s.config))
    requires Race(s, Built(s.config), x, y) && Interferes(s, Built(s.config), y, x)
    ensures !OrdersAgree(s.(tools := tools), Built(s.config), OldFiles(s.config))
  {
    var g := Built(s.config);
    NoPlaceholders(s.config);
    BuiltFromConfig(s);
    var d, watch := g.attrs[x].depset, NodeWrites(s, g, y).value;
    if d.operation.Relax? { RelaxReadsReference(s, x, y); }
    var target := d.output.value;
    if watch == target { OneWriter(s, g, x, y, target); }
    OneWriter(s, g, y, y, watch);
    tools := RaceTools(s.config, watch, target);
    var t := s.(tools := tools);
    var a, i, b, j := TwoOrders(g, x, y);
    assert AllCanRun(t, g, Elements(a)) by {
      forall n | n in Elements(a) ensures CanRun(t, g, n) { assert CanRun(s, g, n); }
    }
    TargetFile(t, g, a, i, y, watch, target);
    TargetFile(t, g, b, j, y, watch, target);
    assert Run(t, g, a, OldFiles(s.config)) != Run(t, g, b, OldFiles(s.config));
  }

  lemma {:induction false} RaceMatters(s: Setup, x: string, y: string) returns (tools: Tools)
    requires AllResolvable(s.config) && OwnOutputs(s.config) && !HasCycle(Built(s.config))
    requires Race(s, Built(s.config), x, y)
    ensures !OrdersAgree(s.(tools := tools), Built(s.config), OldFiles(s.config))
  {
    if Interferes(s, Built(s.config), y, x) {
      tools := ReaderRaces(s, x, y);
    } else {
      assert {x, y} == {y, x};
      tools := ReaderRaces(s, y, x);
    }
  }

  lemma {:induction false} SameRaces(s: Setup, g: DepGraph, tools: Tools, x: string, y: string)
    ensures Race(s, g, x, y) <==> Race(s.(tools := tools), g, x, y)
  {
    var t := s.(tools := tools);
    assert Conflict(s, g, x, y) <==> Conflict(t, g, x, y);
    forall n ensures CanRun(s, g, n) <==> CanRun(t, g, n) {}
  }

  /**
   * With an own output path for every depset, the order of execution is irrelevant, for all tools and
   * files, if and only if the build graph orders all depsets that touch the same file and can run.
   */
  lemma {:induction false} ConfluenceExact(s: Setup)
    requires AllResolvable(s.config) && OwnOutputs(s.config) && !HasCycle(Built(s.config))
    ensures (forall tools, files :: OrdersAgree(s.(tools := tools), Built(s.config), files))
       <==> (forall x, y :: !Race(s, Built(s.config), x, y))
  {
    var g := Built(s.config);
    NoPlaceholders(s.config);
    if x, y :| Race(s, g, x, y) {
      var tools := RaceMatters(s, x, y);
    } else {
      forall tools, files ensures OrdersAgree(s.(tools := tools), g, files) {
        NoRaceAlways(s, tools, files);
      }
    }
  }

  lemma {:induction false} NoRaceAlways(s: Setup, tools: Tools, files: Files)
    requires AllResolvable(s.config) && forall x, y :: !Race(s, Built(s.config), x, y)
    ensures OrdersAgree(s.(tools := tools), Built(s.config), files)
  {
    var g, t := Built(s.config), s.(tools := tools);
    NoPlaceholders(s.config);
    forall x, y ensures !Race(t, g, x, y) { SameRaces(s, g, tools, x, y); }
    forall a, b | Ordered(g, a) && Ordered(g, b) && Elements(a) == Elements(b)
      ensures Run(t, g, a, files) == Run(t, g, b, files)
    {
      NoRaceAgree(t, g, a, b, files);
    }
  }

  // ----- An undeclared read -----

  function CompileDepset(name: string, constraints: seq<string>, output: string): Depset {
    Depset(name, Compile, Some(output), "c", constraints, [], [], None, [], [], [], [], true)
  }

  /** `b` is constrained by the output of `a` without referring to `a`. */
  const HIDDEN: seq<Depset> := [CompileDepset("a", [], "a.lock"), CompileDepset("b", ["a.lock"], "b.lock")]

  lemma {:induction false} HiddenConfig()
    ensures DistinctNodes(HIDDEN) && AllResolvable(HIDDEN) && OwnOutputs(HIDDEN)
  {
    assert Map(NameOf, HIDDEN) == ["a", "b"];
    assert "a" != "b" && "a.lock"[0] != "b.lock"[0];
  }

  lemma {:induction false} HiddenEdges(u: string, v: string)
    ensures (u, v) !in Built(HIDDEN).edges
  {
    BuiltFacts(HIDDEN, u, v);
  }

  lemma {:induction false} LongPath(g: DepGraph, p: seq<string>)
    requires Path(g, p) && |p| > 1
    ensures exists x, y :: (x, y) in g.edges
  {
    assert (p[0], p[1]) in g.edges;
  }

  lemma {:induction false} EdgelessReaches(g: DepGraph, u: string, v: string)
    requires forall x, y :: (x, y) !in g.edges
    ensures !HasCycle(g) && (Reaches(g, u, v) <==> u == v)
  {
    forall p, x, y | PathBetween(g, p, x, y) ensures |p| == 1 {
      if |p| > 1 { LongPath(g, p); }
    }
    ReachesSelf(g, u);
  }

  lemma {:induction false} HiddenNodes(s: Setup)
    requires s.config == HIDDEN
    ensures var g := Built(HIDDEN);
            && "a" in g.nodes && "b" in g.nodes
            && Conflict(s, g, "a", "b") && CanRun(s, g, "a") && CanRun(s, g, "b")
  {
    var a, b := HIDDEN[0], HIDDEN[1];
    HiddenConfig();
    NodeCarriesDepset(HIDDEN, a);
    NodeCarriesDepset(HIDDEN, b);
    NoPlaceholders(HIDDEN);
    assert "a.lock" in multiset(b.constraints);
  }

  /** Its two nodes race, so the outcome depends on the order. */
  lemma {:induction false} HiddenReadMatters(s: Setup) returns (tools: Tools, files: Files)
    requires s.config == HIDDEN
    ensures Race(s, Built(HIDDEN), "a", "b") && !OrdersAgree(s.(tools := tools), Built(HIDDEN), files)
  {
    var g := Built(HIDDEN);
    HiddenConfig();
    HiddenNodes(s);
    forall u, v ensures (u, v) !in g.edges { HiddenEdges(u, v); }
    forall n | n in WithAncestors(g, {"a", "b"}) ensures CanRun(s, g, n) {
      EdgelessReaches(g, n, "a");
      EdgelessReaches(g, n, "b");
    }
    EdgelessReaches(g, "a", "b");
    EdgelessReaches(g, "b", "a");
    tools := RaceMatters(s, "a", "b");
    files := OldFiles(HIDDEN);
  }
}
