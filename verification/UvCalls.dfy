/** The command line of a `uv pip compile` call (`compile` in ray/ci/raydepsets/cli.py) and how it reads back. */
module UvCalls {
  import opened Seqs
  import opened Sorting
  import opened StringOrder

  /** What `compile` is asked for. It sorts constraints and requirements, so only their multisets count. */
  datatype Invocation = Invocation(
    flags: seq<string>,
    constraints: multiset<string>,
    requirements: multiset<string>,
    packages: seq<string>,
    output: Option<string>)

  /** Some listing of a multiset. */
  ghost function Listed(m: multiset<string>): seq<string> {
    if m == multiset{} then [] else var x :| x in m; [x] + Listed(m - multiset{x})
  }

  lemma {:induction false} ListedIs(m: multiset<string>)
    ensures multiset(Listed(m)) == m
  {
    if m != multiset{} {
      var x :| x in m && Listed(m) == [x] + Listed(m - multiset{x});
      ListedIs(m - multiset{x});
    }
  }

  /** The members of a multiset in order. */
  ghost function Arranged(m: multiset<string>): seq<string> {
    Sort(StrLe, Listed(m))
  }

  lemma {:induction false} ArrangedFacts(m: multiset<string>)
    ensures multiset(Arranged(m)) == m && Sorted(StrLe, Arranged(m))
  {
    StrLeIsTotal();
    ListedIs(m);
    SortPermutes(StrLe, Listed(m));
    SortSorts(StrLe, Listed(m));
  }

  lemma {:induction false} ArrangedIsSorted(s: seq<string>)
    ensures Arranged(multiset(s)) == Sort(StrLe, s)
  {
    StrLeIsTotal();
    ListedIs(multiset(s));
    forall x, y | StrLe(x, y) && StrLe(y, x) ensures x == y { StrLeAntisymmetric(x, y); }
    SortDeterministic(StrLe, Listed(multiset(s)), s);
  }

  // ----- Building the command line -----

  function WithMark(cs: seq<string>): seq<string> {
    if cs == [] then [] else ["-c", cs[0]] + WithMark(cs[1..])
  }

  function Ending(packages: seq<string>, output: Option<string>): seq<string> {
    (if packages != [] then ["-"] else []) + (if output.Some? then ["-o", output.value] else [])
  }

  /** The arguments after the flags. */
  ghost function Operands(call: Invocation): seq<string> {
    WithMark(Arranged(call.constraints)) + (Arranged(call.requirements) + Ending(call.packages, call.output))
  }

  ghost function Argv(call: Invocation): seq<string> {
    call.flags + Operands(call)
  }

  lemma {:induction false} WithMarkSnoc(cs: seq<string>, c: string)
    ensures WithMark(cs + [c]) == WithMark(cs) + ["-c", c]
  {
    if cs == [] {
      assert [] + [c] == [c] && [c][1..] == [];
    } else {
      assert (cs + [c])[1..] == cs[1..] + [c];
      WithMarkSnoc(cs[1..], c);
    }
  }

  /** The two loops over the sorted lists. */
  method Listings(constraints: seq<string>, requirements: seq<string>) returns (args: seq<string>)
    ensures args == WithMark(Sort(StrLe, constraints)) + Sort(StrLe, requirements)
  {
    var cs, rs := Sort(StrLe, constraints), Sort(StrLe, requirements);
    args := [];
    for i := 0 to |cs|
      invariant args == WithMark(cs[..i])
    {
      WithMarkSnoc(cs[..i], cs[i]);
      assert cs[..i + 1] == cs[..i] + [cs[i]];
      args := args + ["-c", cs[i]];
    }
    assert cs[..|cs|] == cs;
    for i := 0 to |rs|
      invariant args == WithMark(cs) + rs[..i]
    {
      args := args + [rs[i]];
    }
  }

  /** `compile` up to the call of uv. */
  method BuildArgs(flags: seq<string>, constraints: seq<string>, requirements: seq<string>, packages: seq<string>,
                   output: Option<string>)
    returns (args: seq<string>)
    ensures args == Argv(Invocation(flags, multiset(constraints), multiset(requirements), packages, output))
  {
    args := Listings(constraints, requirements);
    args := flags + args;
    ghost var start := args;
    if packages != [] {
      args := args + ["-"];
    }
    if output.Some? {
      args := args + ["-o", output.value];
    }
    assert args == start + Ending(packages, output);
    ArgvParts(flags, constraints, requirements, packages, output);
  }

  lemma {:induction false} ArgvParts(flags: seq<string>, constraints: seq<string>, requirements: seq<string>,
                                     packages: seq<string>, output: Option<string>)
    ensures Argv(Invocation(flags, multiset(constraints), multiset(requirements), packages, output))
         == flags + (WithMark(Sort(StrLe, constraints)) + Sort(StrLe, requirements)) + Ending(packages, output)
  {
    ArrangedIsSorted(constraints);
    ArrangedIsSorted(requirements);
    Regroup(flags, WithMark(Sort(StrLe, constraints)), Sort(StrLe, requirements), Ending(packages, output));
  }

  lemma Regroup(a: seq<string>, b: seq<string>, c: seq<string>, d: seq<string>)
    ensures a + (b + (c + d)) == a + (b + c) + d
  {}

  // ----- Reading it back -----

  /** What a command line names. */
  datatype Reading = Reading(
    constraints: seq<string>,
    requirements: seq<string>,
    stdin: bool,
    output: Option<string>)

  const BLANK := Reading([], [], false, None)

  /** `-c` and `-o` take the next argument, `-` stands for standard input, the rest are requirement files. */
  function Read(args: seq<string>): Reading
    decreases |args|
  {
    if args == [] then BLANK
    else if args[0] == "-" then Read(args[1..]).(stdin := true)
    else if args[0] != "-c" && args[0] != "-o" then
      var r := Read(args[1..]);
      r.(requirements := [args[0]] + r.requirements)
    else if |args| == 1 then BLANK
    else
      var r := Read(args[2..]);
      if args[0] == "-c" then r.(constraints := [args[1]] + r.constraints)
      else if r.output.None? then r.(output := Some(args[1]))
      else r
  }

  const MARKERS: seq<string> := ["-", "-c", "-o"]

  ghost predicate NoMarkers(rs: seq<string>) {
    forall i :: 0 <= i < |rs| ==> rs[i] !in MARKERS
  }

  lemma {:induction false} ReadsNoMarkers(args: seq<string>)
    ensures NoMarkers(Read(args).requirements)
    decreases |args|
  {
    if args != [] {
      ReadsNoMarkers(args[1..]);
      if |args| > 1 { ReadsNoMarkers(args[2..]); }
    }
  }

  lemma {:induction false} ReadConstraint(c: string, rest: seq<string>)
    ensures Read(["-c", c] + rest) == Read(rest).(constraints := [c] + Read(rest).constraints)
  {
    var args := ["-c", c] + rest;
    assert args[0] == "-c" && args[1] == c && args[2..] == rest;
  }

  lemma {:induction false} ReadConstraints(cs: seq<string>, rest: seq<string>)
    ensures Read(WithMark(cs) + rest) == Read(rest).(constraints := cs + Read(rest).constraints)
  {
    if cs == [] {
      assert [] + rest == rest && cs + Read(rest).constraints == Read(rest).constraints;
    } else {
      var more := WithMark(cs[1..]) + rest;
      assert WithMark(cs) + rest == ["-c", cs[0]] + more;
      ReadConstraint(cs[0], more);
      ReadConstraints(cs[1..], rest);
      assert [cs[0]] + (cs[1..] + Read(rest).constraints) == cs + Read(rest).constraints;
    }
  }

  lemma {:induction false} ReadRequirements(rs: seq<string>, rest: seq<string>)
    requires NoMarkers(rs)
    ensures Read(rs + rest) == Read(rest).(requirements := rs + Read(rest).requirements)
  {
    if rs == [] {
      assert [] + rest == rest && rs + Read(rest).requirements == Read(rest).requirements;
    } else {
      var args := rs + rest;
      assert args[0] == rs[0] && rs[0] !in MARKERS && args[1..] == rs[1..] + rest;
      assert rs[0] != MARKERS[0] && rs[0] != MARKERS[1] && rs[0] != MARKERS[2];
      ReadRequirements(rs[1..], rest);
      assert rs == [rs[0]] + rs[1..];
    }
  }

  lemma {:induction false} ReadEnding(packages: seq<string>, output: Option<string>)
    ensures Read(Ending(packages, output)) == Reading([], [], packages != [], output)
  {
    var last := if output.Some? then ["-o", output.value] else [];
    assert Read(last) == BLANK.(output := output) by {
      if output.Some? { assert last[2..] == []; }
    }
    if packages != [] {
      assert Ending(packages, output)[1..] == last;
    } else {
      assert Ending(packages, output) == last;
    }
  }

  /** The command line names exactly what was asked for if and only if no requirement looks like an option. */
  lemma {:induction false} ReadsBack(call: Invocation)
    ensures Argv(call) == call.flags + Operands(call)
    ensures Read(Operands(call))
            == Reading(Arranged(call.constraints), Arranged(call.requirements), call.packages != [], call.output)
       <==> NoMarkers(Arranged(call.requirements))
  {
    var cs, rs, ending := Arranged(call.constraints), Arranged(call.requirements), Ending(call.packages, call.output);
    ReadsNoMarkers(Operands(call));
    if NoMarkers(rs) {
      ReadConstraints(cs, rs + ending);
      ReadRequirements(rs, ending);
      ReadEnding(call.packages, call.output);
      assert cs + [] == cs && rs + [] == rs;
    }
  }
}
