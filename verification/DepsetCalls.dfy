/** What each operation asks of uv and of the file system, stated on command lines and files. */
module DepsetCalls {
  import opened Seqs
  import opened Sorting
  import opened StringOrder
  import opened BuildGraphs
  import opened Depsets
  import opened DepsetExpansion
  import opened UvFlags
  import opened UvCalls
  import opened DepsetExecution

  /** None of the requirement files is called like an option. */
  ghost predicate PlainPaths(m: multiset<string>) {
    forall i :: 0 <= i < |MARKERS| ==> MARKERS[i] !in m
  }

  /** The command line `args` starts with `flags` and then names exactly these things, lists in order. */
  ghost predicate AsksFor(args: seq<string>, flags: seq<string>, constraints: multiset<string>,
                          requirements: multiset<string>, stdin: bool, output: Option<string>) {
    && flags <= args
    && var r := Read(args[|flags|..]);
       && multiset(r.constraints) == constraints && Sorted(StrLe, r.constraints)
       && multiset(r.requirements) == requirements && Sorted(StrLe, r.requirements)
       && r.stdin == stdin && r.output == output
  }

  lemma {:induction false} CallAsks(call: Invocation)
    requires PlainPaths(call.requirements)
    ensures AsksFor(Argv(call), call.flags, call.constraints, call.requirements, call.packages != [], call.output)
  {
    var rs := Arranged(call.requirements);
    ArrangedFacts(call.constraints);
    ArrangedFacts(call.requirements);
    forall i | 0 <= i < |rs| ensures rs[i] !in MARKERS {
      assert rs[i] in multiset(rs);
    }
    ReadsBack(call);
    assert Argv(call)[|call.flags|..] == Operands(call);
  }

  // ----- The three operations that call uv -----

  /** A compile depset asks for its own constraints, requirements, packages and output. */
  lemma {:induction false} CompileCall(config: seq<Depset>, d: Depset, cacheDir: Option<string>)
    requires d.operation.Compile?
    ensures var call := UvCall(config, d, cacheDir);
            && call.Some? && call.value.packages == d.packages
            && (PlainPaths(multiset(d.requirements)) ==>
                  AsksFor(Argv(call.value), FlagArgs(d, cacheDir), multiset(d.constraints), multiset(d.requirements),
                          d.packages != [], d.output))
  {
    if PlainPaths(multiset(d.requirements)) {
      CallAsks(UvCall(config, d, cacheDir).value);
    }
  }

  /** Some depset reachable from `name` through expand depsets requires `r`. */
  ghost predicate Reachable(config: seq<Depset>, name: string, r: string) {
    exists p :: Supplies(config, p, name, r)
  }

  lemma {:induction false} ExpandedIsReachable(config: seq<Depset>, name: string, r: string)
    ensures r in ExpandedRequirements(config, name) <==> Reachable(config, name, r)
  {
    if p :| Supplies(config, p, name, r) {
      var d := GetDepset(config, p[|p| - 1]).value;
      var k :| 0 <= k < |config| && config[k] == d;
      assert r in Map(RequirementsOf, config)[k];
      ConcatMembers(Map(RequirementsOf, config), r);
    }
  }

  lemma {:induction false} SubsetAllowed(config: seq<Depset>, requirements: seq<string>, name: string)
    ensures IsSubsetOf(config, requirements, name)
       <==> forall i :: 0 <= i < |requirements| ==> Reachable(config, name, requirements[i])
  {
    forall i | 0 <= i < |requirements|
      ensures requirements[i] in ExpandedRequirements(config, name) <==> Reachable(config, name, requirements[i])
    {
      ExpandedIsReachable(config, name, requirements[i]);
    }
  }

  /**
   * A subset depset is refused unless its requirements are all reachable from its source; it is then
   * constrained by the source's lock file alone.
   */
  lemma {:induction false} SubsetCall(config: seq<Depset>, d: Depset, cacheDir: Option<string>, source: Depset)
    requires d.operation.Subset? && d.sourceDepset.Some? && GetDepset(config, d.sourceDepset.value) == Some(source)
    ensures var call := UvCall(config, d, cacheDir);
            && (call.Some? <==> source.output.Some?
                                && forall i :: 0 <= i < |d.requirements| ==>
                                     Reachable(config, source.name, d.requirements[i]))
            && (call.Some? ==> call.value.packages == [])
            && (call.Some? && PlainPaths(multiset(d.requirements)) ==>
                  AsksFor(Argv(call.value), FlagArgs(d, cacheDir), multiset{source.output.value},
                          multiset(d.requirements), false, d.output))
  {
    SubsetAllowed(config, d.requirements, source.name);
    var call := UvCall(config, d, cacheDir);
    if call.Some? && PlainPaths(multiset(d.requirements)) {
      CallAsks(call.value);
    }
  }

  /** How often the listed depset `dep` contributes `r`: a relaxed one its lock file, others their expansion. */
  ghost function Contributes(config: seq<Depset>, r: string): string -> int {
    (dep: string) =>
      var e := GetDepset(config, dep);
      if e.None? then 0
      else if e.value.operation.Relax? then (if e.value.output == Some(r) then 1 else 0)
      else if Reachable(config, dep, r) then 1 else 0
  }

  ghost predicate Contributing(config: seq<Depset>, deps: seq<string>) {
    forall i :: 0 <= i < |deps| ==>
      var e := GetDepset(config, deps[i]);
      e.Some? && (e.value.operation.Relax? ==> e.value.output.Some?)
  }

  lemma {:induction false} InputCount(config: seq<Depset>, dep: string, r: string)
    requires ExpandInput(config, dep).Some?
    ensures ExpandInput(config, dep).value[r] == Contributes(config, r)(dep)
  {
    ExpandedIsReachable(config, dep, r);
  }

  lemma {:induction false} InputsCount(config: seq<Depset>, deps: seq<string>, r: string)
    ensures ExpandInputs(config, deps).Some? <==> Contributing(config, deps)
    ensures Contributing(config, deps) ==> ExpandInputs(config, deps).value[r] == SumBy(Contributes(config, r), deps)
  {
    if deps != [] {
      var init, dep := deps[..|deps| - 1], deps[|deps| - 1];
      assert deps == init + [dep];
      InputsCount(config, init, r);
      ContributingSnoc(config, init, dep);
      SumBySnoc(Contributes(config, r), init, dep);
      if ExpandInput(config, dep).Some? { InputCount(config, dep, r); }
    }
  }

  lemma {:induction false} ContributingSnoc(config: seq<Depset>, init: seq<string>, dep: string)
    ensures Contributing(config, init + [dep]) <==> Contributing(config, init) && ExpandInput(config, dep).Some?
  {
    var deps := init + [dep];
    assert deps[|init|] == dep && forall i :: 0 <= i < |init| ==> deps[i] == init[i];
  }

  /**
   * An expand depset is refused only for an unknown depset or a relaxed one without output; it asks for
   * the relaxed lock files, the expansions of the others, and its own requirements, under its own constraints.
   */
  lemma {:induction false} ExpandCall(config: seq<Depset>, d: Depset, cacheDir: Option<string>)
    requires d.operation.Expand?
    ensures var call := UvCall(config, d, cacheDir);
            && (call.Some? <==> Contributing(config, d.depsets))
            && (call.Some? ==> call.value.packages == [])
            && (call.Some? ==>
                  forall r: string :: call.value.requirements[r]
                                      == multiset(d.requirements)[r] + SumBy(Contributes(config, r), d.depsets))
            && (call.Some? && PlainPaths(call.value.requirements) ==>
                  AsksFor(Argv(call.value), FlagArgs(d, cacheDir), multiset(d.constraints), call.value.requirements,
                          false, d.output))
  {
    forall r: string
      ensures ExpandInputs(config, d.depsets).Some? <==> Contributing(config, d.depsets)
      ensures Contributing(config, d.depsets) ==>
                ExpandInputs(config, d.depsets).value[r] == SumBy(Contributes(config, r), d.depsets)
    {
      InputsCount(config, d.depsets, r);
    }
    InputsCount(config, d.depsets, "");
    var call := UvCall(config, d, cacheDir);
    if call.Some? && PlainPaths(call.value.requirements) {
      CallAsks(call.value);
    }
  }

  // ----- What a step does to the files -----

  lemma {:induction false} CallParts(config: seq<Depset>, d: Depset, cacheDir: Option<string>)
    requires UvCall(config, d, cacheDir).Some?
    ensures UvCall(config, d, cacheDir).value.output == d.output
    ensures UvCall(config, d, cacheDir).value.flags == FlagArgs(d, cacheDir)
  {}

  /** uv sees the files its command line names, and its answer goes to the output path and nowhere else. */
  lemma {:induction false} CallWrites(s: Setup, d: Depset, files: Files, call: Invocation, seen: Files)
    requires !d.operation.Relax? && UvCall(s.config, d, s.cacheDir) == Some(call)
    requires forall p :: p in seen <==>
               p in files && (p in call.constraints || p in call.requirements || call.output == Some(p))
    requires forall p :: p in seen ==> seen[p] == files[p]
    ensures var answer := s.tools.uv(Argv(call), call.packages, seen);
            Step(s, d, files) ==
            if answer.None? then None
            else Some(if d.output.Some? then files[d.output.value := answer.value] else files)
  {
    CallParts(s.config, d, s.cacheDir);
    var visible := Visible(files, CallReads(call));
    assert forall p :: p in visible <==> p in seen;
    assert visible == seen;
  }

  /** The packages left in a lock file: exactly the others, each as often and in the order it was there. */
  lemma {:induction false} RelaxKeeps(lock: LockFile, packages: seq<string>) returns (pos: seq<nat>)
    requires RelaxLock(lock, packages).Some?
    ensures var kept := RelaxLock(lock, packages).value;
            && kept.rest == lock.rest && |pos| == |kept.requirements|
            && Positions((r: Requirement) => r.name !in packages, lock.requirements, pos)
            && forall i :: 0 <= i < |pos| ==> kept.requirements[i] == lock.requirements[pos[i]]
  {
    pos := FilterPositions(NotIn(packages), lock.requirements);
  }

  /** A relax depset rewrites its source's lock file, into its own output if it has one. */
  lemma {:induction false} RelaxStep(s: Setup, d: Depset, files: Files, source: Depset)
    requires d.operation.Relax? && d.sourceDepset.Some? && GetDepset(s.config, d.sourceDepset.value) == Some(source)
    ensures (source.output.None? || source.output.value !in files) ==> Step(s, d, files) == None
    ensures source.output.Some? && source.output.value in files ==>
              var lock := RelaxLock(s.tools.parse(files[source.output.value]), d.packages);
              var target := if d.output.Some? then d.output.value else source.output.value;
              Step(s, d, files) == if lock.None? then None else Some(files[target := s.tools.dump(lock.value)])
  {
    if source.output.Some? {
      assert source.output.value in Reads(s.config, d, s.cacheDir);
    }
  }

  // ----- The flags of a call -----

  /**
   * With overrides that fit the defaults, the flags denote the defaults updated with the overrides and then
   * with the appended flags; without overrides, the defaults stand unchanged before the appended flags.
   */
  lemma {:induction false} FlagsDenote(d: Depset, cacheDir: Option<string>, overrides: seq<Item>, appended: seq<Item>)
    requires AllOverrides(overrides) && AllOverrides(appended)
    requires d.overrideFlags == Map(Written, overrides) && d.appendFlags == Map(Written, appended)
    requires Aligned(DefaultItems(d.includeSetuptools, cacheDir), Elements(Map(ItemName, overrides)), false)
    ensures var items := Others(DefaultItems(d.includeSetuptools, cacheDir), overrides) + overrides + appended;
            && FlagArgs(d, cacheDir) == AllTokens(items)
            && Meaning(items)
               == Meaning(DefaultItems(d.includeSetuptools, cacheDir)) + Meaning(overrides) + Meaning(appended)
    ensures overrides == [] ==>
              FlagArgs(d, cacheDir) == DefaultArgs(d.includeSetuptools, cacheDir) + AllTokens(appended)
  {
    var defaults := DefaultItems(d.includeSetuptools, cacheDir);
    DefaultTokens(d.includeSetuptools, cacheDir);
    WrittenAll(appended);
    OverrideTokens(defaults, overrides);
    OverrideMeaning(defaults, overrides);
    AllTokensAppend(Others(defaults, overrides) + overrides, appended);
    MeaningAppend(Others(defaults, overrides) + overrides, appended);
    if overrides == [] {
      NoOverrides(defaults, overrides);
    }
  }

  lemma {:induction false} NoOverrides(items: seq<Item>, overrides: seq<Item>)
    requires overrides == []
    ensures Others(items, overrides) + overrides == items && Map(Written, overrides) == []
  {
    WrittenNames(overrides);
    assert Map(ItemName, overrides) == [];
    FilterKeepsAll(NotNamed(FlagNames(Map(Written, overrides))), items);
  }
}
