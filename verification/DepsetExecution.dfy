/** Executing depsets: what each one reads and writes, and why the order does not matter. */
module DepsetExecution {
  import opened Seqs
  import opened BuildGraphs
  import opened Depsets
  import opened DepsetExpansion
  import opened UvFlags
  import opened UvCalls

  type Files = map<string, string>

  datatype Requirement = Requirement(name: string, text: string)
  datatype LockFile = LockFile(requirements: seq<Requirement>, rest: string)

  /**
   * The foreign tools: uv on its arguments, the packages on its standard input and the files it may read,
   * and the lock-file library. `None` is a failure.
   */
  datatype Tools = Tools(
    uv: (seq<string>, seq<string>, Files) -> Option<string>,
    parse: string -> LockFile,
    dump: LockFile -> string)

  function FlagArgs(d: Depset, cacheDir: Option<string>): seq<string> {
    var args := DefaultArgs(d.includeSetuptools, cacheDir);
    (if d.overrideFlags == [] then args
     else Kept(args, FlagNames(d.overrideFlags), false) + FlattenFlags(d.overrideFlags))
    + FlattenFlags(d.appendFlags)
  }

  /** Overriding the default `--no-header` also drops the `--generate-hashes` after it. */
  lemma {:induction false} NoHeaderSwallows(d: Depset, cacheDir: Option<string>)
    requires d.overrideFlags == ["--no-header"] && cacheDir != Some("--no-header")
    ensures FlagArgs(d, cacheDir)
         == DefaultArgs(d.includeSetuptools, cacheDir)[2..] + ["--no-header"] + FlattenFlags(d.appendFlags)
    ensures DefaultArgs(d.includeSetuptools, cacheDir)[..2] == ["--no-header", "--generate-hashes"]
  {
    var args := DefaultArgs(d.includeSetuptools, cacheDir);
    NoHeaderOnce(d.includeSetuptools, cacheDir);
    assert args[0] == args[..2][0];
    SwitchSwallows(args, "--no-header");
  }

  // ----- relax -----

  function ReqName(r: Requirement): string { r.name }

  function NotIn(packages: seq<string>): Requirement -> bool {
    (r: Requirement) => r.name !in packages
  }

  predicate AllListed(packages: seq<string>, lock: LockFile) {
    forall i :: 0 <= i < |packages| ==> packages[i] in Map(ReqName, lock.requirements)
  }

  /** Removing packages from a lock file fails when one of them is not in it. */
  function RelaxLock(lock: LockFile, packages: seq<string>): Option<LockFile> {
    if AllListed(packages, lock) then Some(lock.(requirements := Filter(NotIn(packages), lock.requirements))) else None
  }

  // ----- What a depset reads, writes and produces -----

  /** What an expand depset adds for the depsets it lists; relaxed ones contribute their lock file. */
  ghost function ExpandInputs(config: seq<Depset>, deps: seq<string>): Option<multiset<string>> {
    if deps == [] then Some(multiset{})
    else
      var before := ExpandInputs(config, deps[..|deps| - 1]);
      var own := ExpandInput(config, deps[|deps| - 1]);
      if before.None? || own.None? then None else Some(before.value + own.value)
  }

  ghost function ExpandInput(config: seq<Depset>, dep: string): Option<multiset<string>> {
    var d := GetDepset(config, dep);
    if d.None? then None
    else if d.value.operation.Relax? then
      (if d.value.output.Some? then Some(multiset{d.value.output.value}) else None)
    else Some(multiset(ExpandedRequirements(config, dep)))
  }

  ghost predicate IsSubsetOf(config: seq<Depset>, requirements: seq<string>, source: string) {
    forall i :: 0 <= i < |requirements| ==> requirements[i] in ExpandedRequirements(config, source)
  }

  /** The uv call for a compile, subset or expand depset, unless the source raises before making it. */
  ghost function UvCall(config: seq<Depset>, d: Depset, cacheDir: Option<string>): Option<Invocation> {
    var flags := FlagArgs(d, cacheDir);
    match d.operation
    case Compile =>
      Some(Invocation(flags, multiset(d.constraints), multiset(d.requirements), d.packages, d.output))
    case Subset =>
      var source := if d.sourceDepset.Some? then GetDepset(config, d.sourceDepset.value) else None;
      if source.None? || !IsSubsetOf(config, d.requirements, source.value.name) || source.value.output.None? then None
      else Some(Invocation(flags, multiset{source.value.output.value}, multiset(d.requirements), [], d.output))
    case Expand =>
      var inputs := ExpandInputs(config, d.depsets);
      if inputs.None? then None
      else Some(Invocation(flags, multiset(d.constraints), inputs.value + multiset(d.requirements), [], d.output))
    case _ => None
  }

  /** Files uv may read: constraints, requirements, and a previous version of its output. */
  function CallReads(call: Invocation): set<string> {
    (set p | p in call.constraints) + (set p | p in call.requirements)
    + (if call.output.Some? then {call.output.value} else {})
  }

  function SourceLock(config: seq<Depset>, d: Depset): Option<string> {
    var source := if d.sourceDepset.Some? then GetDepset(config, d.sourceDepset.value) else None;
    if source.Some? then source.value.output else None
  }

  ghost function Reads(config: seq<Depset>, d: Depset, cacheDir: Option<string>): set<string> {
    if d.operation.Relax? then (var lock := SourceLock(config, d); if lock.Some? then {lock.value} else {})
    else (var call := UvCall(config, d, cacheDir); if call.Some? then CallReads(call.value) else {})
  }

  /** A relax depset without an output overwrites its source's lock file. */
  function Writes(config: seq<Depset>, d: Depset): Option<string> {
    if d.operation.Relax? && d.output.None? then SourceLock(config, d) else d.output
  }

  function Visible(files: Files, paths: set<string>): Files {
    map p | p in paths && p in files :: files[p]
  }

  /** What `d` makes of the files it sees. */
  ghost function Produce(config: seq<Depset>, tools: Tools, cacheDir: Option<string>, d: Depset,
                         seen: Files): Option<string> {
    if d.operation.Relax? then
      var lock := SourceLock(config, d);
      if lock.None? || lock.value !in seen then None
      else
        var relaxed := RelaxLock(tools.parse(seen[lock.value]), d.packages);
        if relaxed.None? then None else Some(tools.dump(relaxed.value))
    else
      var call := UvCall(config, d, cacheDir);
      if call.None? then None else tools.uv(Argv(call.value), call.value.packages, seen)
  }

  /** Manager settings that every step shares. */
  datatype Setup = Setup(config: seq<Depset>, tools: Tools, cacheDir: Option<string>)

  ghost function Result(s: Setup, d: Depset, files: Files): Option<string> {
    Produce(s.config, s.tools, s.cacheDir, d, Visible(files, Reads(s.config, d, s.cacheDir)))
  }

  ghost function Step(s: Setup, d: Depset, files: Files): Option<Files> {
    var content := Result(s, d, files);
    if content.None? then None
    else
      Some(Put(files, Writes(s.config, d), content.value))
  }

  function Put(files: Files, path: Option<string>, content: string): Files {
    if path.Some? then files[path.value := content] else files
  }

  /** Visiting one node: hooks are only ordered, depsets execute, a node without attributes raises. */
  ghost function Visit(s: Setup, g: DepGraph, n: string, files: Files): Option<Files> {
    if n !in g.attrs then None
    else match g.attrs[n]
      case HookNode(_, _) => Some(files)
      case DepsetNode(d) => Step(s, d, files)
  }

  /** Executing the nodes in the given order; the first failure ends the run. */
  ghost function Run(s: Setup, g: DepGraph, order: seq<string>, files: Files): Option<Files> {
    if order == [] then Some(files)
    else
      var before := Run(s, g, order[..|order| - 1], files);
      if before.None? then None else Visit(s, g, order[|order| - 1], before.value)
  }

  // ----- The graph that is executed -----

  /** `g` is the whole build graph or an ancestor-closed part of it, attributes included. */
  ghost predicate Faithful(g: DepGraph, config: seq<Depset>) {
    && Covers(g, config)
    && forall n :: n in g.nodes ==> n in g.attrs && n in Built(config).attrs && g.attrs[n] == Built(config).attrs[n]
  }

  lemma {:induction false} BuiltFaithful(config: seq<Depset>)
    requires AllResolvable(config)
    ensures Faithful(Built(config), config)
  {
    NoPlaceholders(config);
    BuiltCovers(config);
  }

  lemma {:induction false} SubgraphFaithful(g: DepGraph, config: seq<Depset>, targets: set<string>)
    requires Faithful(g, config) && targets <= g.nodes
    ensures Faithful(Subgraph(g, WithAncestors(g, targets)), config)
  {
    SubgraphCovers(g, config, targets);
  }
}
